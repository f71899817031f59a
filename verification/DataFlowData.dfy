/** The data-flow points-to data structure and its incremental version, updating nested maps in
    place. Reading a set creates an empty entry for it. */
module DataFlowData {
  import opened DataFlowTables

  class DFPTData {
    var dfInPtsMap: Table
    var dfOutPtsMap: Table
    var ptsMap: Row

    function State(): Tables
      reads this
    {
      Tables(dfInPtsMap, dfOutPtsMap, ptsMap)
    }

    /** From state s, the tables now hold what a plain step leaves, and its answer was given. */
    ghost predicate Does(s: Tables, op: Op, changed: bool)
      reads this
    {
      Same(State(), Plain(s, op)) && (changed <==> PlainGrows(s, op))
    }

    /** The location of the slot has an IN or OUT map now, and no location has lost its own. */
    twostate predicate Created(slot: Slot)
      reads this
    {
      && old(dfInPtsMap).Keys <= dfInPtsMap.Keys && old(dfOutPtsMap).Keys <= dfOutPtsMap.Keys
      && (slot.In? ==> slot.loc in dfInPtsMap) && (slot.Out? ==> slot.loc in dfOutPtsMap)
    }

    constructor ()
      ensures State() == EMPTY
    {
      dfInPtsMap, dfOutPtsMap, ptsMap := map[], map[], map[];
    }

    /** Stores data in a slot. */
    method Assign(slot: Slot, data: set<Var>)
      requires !slot.Given?
      modifies this
      ensures forall other :: Read(State(), other) == if other == slot then data else Read(old(State()), other)
      ensures Created(slot)
    {
      match slot
      case In(loc, v) => dfInPtsMap := dfInPtsMap[loc := RowAt(dfInPtsMap, loc)[v := data]];
      case Out(loc, v) => dfOutPtsMap := dfOutPtsMap[loc := RowAt(dfOutPtsMap, loc)[v := data]];
      case Top(v) => ptsMap := ptsMap[v := data];
    }

    /** Reads a set, creating its entry. */
    method GetPtsSet(slot: Slot) returns (pts: set<Var>)
      modifies this
      ensures Same(State(), old(State())) && pts == Read(old(State()), slot)
      ensures Created(slot)
    {
      pts := Read(State(), slot);
      if !slot.Given? {
        Assign(slot, pts);
      }
    }

    /** Unions one set into another. */
    method UnionPts(dst: Slot, src: Slot) returns (changed: bool)
      requires !dst.Given?
      modifies this
      ensures forall slot :: Read(State(), slot)
                == Read(old(State()), slot) + if slot == dst then Read(old(State()), src) else {}
      ensures changed <==> !(Read(old(State()), src) <= Read(old(State()), dst))
      ensures Does(old(State()), Move(Always, src, dst), changed)
      ensures Created(dst)
    {
      ghost var s := State();
      var dstPts := GetPtsSet(dst);
      var srcPts := GetPtsSet(src);
      changed := !(srcPts <= dstPts);
      Assign(dst, dstPts + srcPts);
      forall slot ensures Read(State(), slot) == Read(Join(s, dst, Read(s, src)), slot) {
        JoinReads(s, dst, Read(s, src), slot);
      }
    }

    method UpdateDFInFromIn(srcLoc: Loc, srcVar: Var, dstLoc: Loc, dstVar: Var) returns (changed: bool)
      modifies this
      ensures forall slot :: Read(State(), slot)
                == Read(old(State()), slot)
                   + if slot == In(dstLoc, dstVar) then Read(old(State()), In(srcLoc, srcVar)) else {}
      ensures changed <==> !(Read(old(State()), In(srcLoc, srcVar)) <= Read(old(State()), In(dstLoc, dstVar)))
      ensures Does(old(State()), InFromIn(srcLoc, srcVar, dstLoc, dstVar), changed)
    {
      changed := UnionPts(In(dstLoc, dstVar), In(srcLoc, srcVar));
    }

    method UpdateDFInFromOut(srcLoc: Loc, srcVar: Var, dstLoc: Loc, dstVar: Var) returns (changed: bool)
      modifies this
      ensures forall slot :: Read(State(), slot)
                == Read(old(State()), slot)
                   + if slot == In(dstLoc, dstVar) then Read(old(State()), Out(srcLoc, srcVar)) else {}
      ensures changed <==> !(Read(old(State()), Out(srcLoc, srcVar)) <= Read(old(State()), In(dstLoc, dstVar)))
      ensures Does(old(State()), InFromOut(srcLoc, srcVar, dstLoc, dstVar), changed)
    {
      changed := UnionPts(In(dstLoc, dstVar), Out(srcLoc, srcVar));
    }

    method UpdateDFOutFromIn(srcLoc: Loc, srcVar: Var, dstLoc: Loc, dstVar: Var) returns (changed: bool)
      modifies this
      ensures forall slot :: Read(State(), slot)
                == Read(old(State()), slot)
                   + if slot == Out(dstLoc, dstVar) then Read(old(State()), In(srcLoc, srcVar)) else {}
      ensures changed <==> !(Read(old(State()), In(srcLoc, srcVar)) <= Read(old(State()), Out(dstLoc, dstVar)))
      ensures Does(old(State()), OutFromIn(srcLoc, srcVar, dstLoc, dstVar), changed)
    {
      changed := UnionPts(Out(dstLoc, dstVar), In(srcLoc, srcVar));
    }

    method UpdateAllDFInFromOut(srcLoc: Loc, srcVar: Var, dstLoc: Loc, dstVar: Var) returns (changed: bool)
      modifies this
      ensures forall slot :: Read(State(), slot)
                == Read(old(State()), slot)
                   + if slot == In(dstLoc, dstVar) then Read(old(State()), Out(srcLoc, srcVar)) else {}
      ensures changed <==> !(Read(old(State()), Out(srcLoc, srcVar)) <= Read(old(State()), In(dstLoc, dstVar)))
      ensures Does(old(State()), AllInFromOut(srcLoc, srcVar, dstLoc, dstVar), changed)
    {
      changed := UnionPts(In(dstLoc, dstVar), Out(srcLoc, srcVar));
    }

    method UpdateAllDFInFromIn(srcLoc: Loc, srcVar: Var, dstLoc: Loc, dstVar: Var) returns (changed: bool)
      modifies this
      ensures forall slot :: Read(State(), slot)
                == Read(old(State()), slot)
                   + if slot == In(dstLoc, dstVar) then Read(old(State()), In(srcLoc, srcVar)) else {}
      ensures changed <==> !(Read(old(State()), In(srcLoc, srcVar)) <= Read(old(State()), In(dstLoc, dstVar)))
      ensures Does(old(State()), AllInFromIn(srcLoc, srcVar, dstLoc, dstVar), changed)
    {
      changed := UnionPts(In(dstLoc, dstVar), In(srcLoc, srcVar));
    }

    method UpdateTLVPts(srcLoc: Loc, srcVar: Var, dstVar: Var) returns (changed: bool)
      modifies this
      ensures forall slot :: Read(State(), slot)
                == Read(old(State()), slot) + if slot == Top(dstVar) then Read(old(State()), In(srcLoc, srcVar)) else {}
      ensures changed <==> !(Read(old(State()), In(srcLoc, srcVar)) <= Read(old(State()), Top(dstVar)))
      ensures Does(old(State()), ToTopLevel(srcLoc, srcVar, dstVar), changed)
    {
      changed := UnionPts(Top(dstVar), In(srcLoc, srcVar));
    }

    method UpdateATVPts(srcVar: Var, dstLoc: Loc, dstVar: Var) returns (changed: bool)
      modifies this
      ensures forall slot :: Read(State(), slot)
                == Read(old(State()), slot)
                   + if slot == Out(dstLoc, dstVar) then Read(old(State()), Top(srcVar)) else {}
      ensures changed <==> !(Read(old(State()), Top(srcVar)) <= Read(old(State()), Out(dstLoc, dstVar)))
      ensures Does(old(State()), FromTopLevel(srcVar, dstLoc, dstVar), changed)
    {
      changed := UnionPts(Out(dstLoc, dstVar), Top(srcVar));
    }

    /** Passes every IN set of a location on to its OUT set, except a strongly updated singleton. */
    method UpdateAllDFOutFromIn(loc: Loc, singleton: Var, strongUpdates: bool) returns (changed: bool)
      modifies this
      ensures forall slot :: Read(State(), slot)
                == Read(old(State()), slot)
                   + if slot.Out? && slot.loc == loc && !(strongUpdates && slot.v == singleton)
                     then Read(old(State()), In(loc, slot.v)) else {}
      ensures changed <==> exists slot :: Read(State(), slot) != Read(old(State()), slot)
      ensures Does(old(State()), AllOutFromIn(loc, singleton, strongUpdates), changed)
    {
      hide Read, Join, JoinOut, NewOut;
      ghost var s, op := State(), AllOutFromIn(loc, singleton, strongUpdates);
      changed := false;
      ghost var seen: set<Var> := {};
      JoinOutNothing(s, loc);
      if loc in dfInPtsMap {
        var vars := dfInPtsMap[loc].Keys;
        while vars != {}
          invariant RowAt(s.dfIn, loc).Keys == vars + seen + (Skipped(op) * RowAt(s.dfIn, loc).Keys)
          invariant seen !! vars && seen !! Skipped(op)
          invariant Same(State(), JoinOut(s, loc, seen))
          invariant changed <==> exists v <- seen :: NewOut(s, loc, v)
        {
          var v :| v in vars;
          vars := vars - {v};
          if !(strongUpdates && v == singleton) {
            ghost var t := State();
            var grew := UpdateDFOutFromIn(loc, v, loc, v);
            JoinOutOneMore(s, loc, seen, v, t, State());
            if grew {
              changed := true;
            }
            seen := seen + {v};
          }
        }
      }
      assert seen == RowAt(s.dfIn, loc).Keys - Skipped(op);
      AllPassed(s, loc, seen, State());
    }
  }

  /** The incremental version skips a step whose source has nothing new since its flag was last
      lowered. What it inherits is the object base. */
  class IncDFPTData {
    const base: DFPTData
    var inUpdatedVarMap: Flags
    var outUpdatedVarMap: Flags

    ghost function State(): Inc
      reads this, base
    {
      Inc(base.State(), inUpdatedVarMap, outUpdatedVarMap)
    }

    /** A location with flags has an IN or OUT map. */
    ghost predicate Valid()
      reads this, base
    {
      && (forall loc :: FlagsAt(inUpdatedVarMap, loc) != {} ==> loc in base.dfInPtsMap)
      && (forall loc :: FlagsAt(outUpdatedVarMap, loc) != {} ==> loc in base.dfOutPtsMap)
    }

    ghost predicate Does(s: Inc, op: Op, changed: bool)
      reads this, base
    {
      SameInc(State(), IncStep(s, op)) && (changed <==> IncGrows(s, op))
    }

    constructor ()
      ensures Valid() && State() == Inc(EMPTY, map[], map[]) && fresh(base)
    {
      base := new DFPTData();
      inUpdatedVarMap, outUpdatedVarMap := map[], map[];
    }

    // ----- Updated flags

    method SetVarDFInSetUpdated(loc: Loc, v: Var)
      modifies `inUpdatedVarMap
      ensures inUpdatedVarMap == old(inUpdatedVarMap)[loc := FlagsAt(old(inUpdatedVarMap), loc) + {v}]
      ensures forall l ::
                FlagsAt(inUpdatedVarMap, l) == FlagsAt(old(inUpdatedVarMap), l)
                + if l == loc then {v} else {}
    {
      inUpdatedVarMap := inUpdatedVarMap[loc := FlagsAt(inUpdatedVarMap, loc) + {v}];
    }

    method RemoveVarFromDFInUpdatedSet(loc: Loc, v: Var)
      modifies `inUpdatedVarMap
      ensures forall l ::
                FlagsAt(inUpdatedVarMap, l) == FlagsAt(old(inUpdatedVarMap), l)
                - (if l == loc then {v} else {})
    {
      if loc in inUpdatedVarMap {
        inUpdatedVarMap := inUpdatedVarMap[loc := inUpdatedVarMap[loc] - {v}];
      }
    }

    method VarHasNewDFInPts(loc: Loc, v: Var) returns (r: bool)
      ensures r <==> v in FlagsAt(inUpdatedVarMap, loc)
    {
      r := loc in inUpdatedVarMap && v in inUpdatedVarMap[loc];
    }

    method SetVarDFOutSetUpdated(loc: Loc, v: Var)
      modifies `outUpdatedVarMap
      ensures outUpdatedVarMap == old(outUpdatedVarMap)[loc := FlagsAt(old(outUpdatedVarMap), loc) + {v}]
      ensures forall l ::
                FlagsAt(outUpdatedVarMap, l) == FlagsAt(old(outUpdatedVarMap), l)
                + if l == loc then {v} else {}
    {
      outUpdatedVarMap := outUpdatedVarMap[loc := FlagsAt(outUpdatedVarMap, loc) + {v}];
    }

    method RemoveVarFromDFOutUpdatedSet(loc: Loc, v: Var)
      modifies `outUpdatedVarMap
      ensures forall l ::
                FlagsAt(outUpdatedVarMap, l) == FlagsAt(old(outUpdatedVarMap), l)
                - (if l == loc then {v} else {})
    {
      if loc in outUpdatedVarMap {
        outUpdatedVarMap := outUpdatedVarMap[loc := outUpdatedVarMap[loc] - {v}];
      }
    }

    method VarHasNewDFOutPts(loc: Loc, v: Var) returns (r: bool)
      ensures r <==> v in FlagsAt(outUpdatedVarMap, loc)
    {
      r := loc in outUpdatedVarMap && v in outUpdatedVarMap[loc];
    }

    // ----- Steps

    method UpdateDFInFromIn(srcLoc: Loc, srcVar: Var, dstLoc: Loc, dstVar: Var) returns (changed: bool)
      requires Valid()
      modifies this, base
      ensures Valid()
      ensures forall slot :: Read(State().t, slot)
                == Read(old(State().t), slot)
                   + if slot == In(dstLoc, dstVar) && srcVar in FlagsAt(old(inUpdatedVarMap), srcLoc)
                     then Read(old(State().t), In(srcLoc, srcVar)) else {}
      ensures changed <==> srcVar in FlagsAt(old(inUpdatedVarMap), srcLoc)
                            && !(Read(old(State().t), In(srcLoc, srcVar)) <= Read(old(State().t), In(dstLoc, dstVar)))
      ensures forall l ::
                FlagsAt(inUpdatedVarMap, l) == FlagsAt(old(inUpdatedVarMap), l)
                + if changed && l == dstLoc then {dstVar} else {}
      ensures forall l :: FlagsAt(outUpdatedVarMap, l) == FlagsAt(old(outUpdatedVarMap), l)
      ensures Does(old(State()), InFromIn(srcLoc, srcVar, dstLoc, dstVar), changed)
    {
      hide Read, Join;
      var isNew := VarHasNewDFInPts(srcLoc, srcVar);
      changed := false;
      if isNew {
        changed := base.UnionPts(In(dstLoc, dstVar), In(srcLoc, srcVar));
        if changed {
          SetVarDFInSetUpdated(dstLoc, dstVar);
        }
      }
    }

    method UpdateDFInFromOut(srcLoc: Loc, srcVar: Var, dstLoc: Loc, dstVar: Var) returns (changed: bool)
      requires Valid()
      modifies this, base
      ensures Valid()
      ensures forall slot :: Read(State().t, slot)
                == Read(old(State().t), slot)
                   + if slot == In(dstLoc, dstVar) && srcVar in FlagsAt(old(outUpdatedVarMap), srcLoc)
                     then Read(old(State().t), Out(srcLoc, srcVar)) else {}
      ensures changed <==> srcVar in FlagsAt(old(outUpdatedVarMap), srcLoc)
                            && !(Read(old(State().t), Out(srcLoc, srcVar)) <= Read(old(State().t), In(dstLoc, dstVar)))
      ensures forall l ::
                FlagsAt(inUpdatedVarMap, l) == FlagsAt(old(inUpdatedVarMap), l)
                + if changed && l == dstLoc then {dstVar} else {}
      ensures forall l :: FlagsAt(outUpdatedVarMap, l) == FlagsAt(old(outUpdatedVarMap), l)
      ensures Does(old(State()), InFromOut(srcLoc, srcVar, dstLoc, dstVar), changed)
    {
      hide Read, Join;
      var isNew := VarHasNewDFOutPts(srcLoc, srcVar);
      changed := false;
      if isNew {
        changed := base.UnionPts(In(dstLoc, dstVar), Out(srcLoc, srcVar));
        if changed {
          SetVarDFInSetUpdated(dstLoc, dstVar);
        }
      }
    }

    method UpdateDFOutFromIn(srcLoc: Loc, srcVar: Var, dstLoc: Loc, dstVar: Var) returns (changed: bool)
      requires Valid()
      modifies this, base
      ensures Valid()
      ensures forall slot :: Read(State().t, slot)
                == Read(old(State().t), slot)
                   + if slot == Out(dstLoc, dstVar) && srcVar in FlagsAt(old(inUpdatedVarMap), srcLoc)
                     then Read(old(State().t), In(srcLoc, srcVar)) else {}
      ensures changed <==> srcVar in FlagsAt(old(inUpdatedVarMap), srcLoc)
                            && !(Read(old(State().t), In(srcLoc, srcVar)) <= Read(old(State().t), Out(dstLoc, dstVar)))
      ensures forall l ::
                FlagsAt(inUpdatedVarMap, l) == FlagsAt(old(inUpdatedVarMap), l)
                - if l == srcLoc then {srcVar} else {}
      ensures forall l ::
                FlagsAt(outUpdatedVarMap, l) == FlagsAt(old(outUpdatedVarMap), l)
                + if changed && l == dstLoc then {dstVar} else {}
      ensures Does(old(State()), OutFromIn(srcLoc, srcVar, dstLoc, dstVar), changed)
    {
      hide Read, Join, IncStep, IncGrows, SameInc;
      ghost var s := State();
      var isNew := VarHasNewDFInPts(srcLoc, srcVar);
      changed := false;
      if isNew {
        RemoveVarFromDFInUpdatedSet(srcLoc, srcVar);
        changed := base.UnionPts(Out(dstLoc, dstVar), In(srcLoc, srcVar));
        if changed {
          SetVarDFOutSetUpdated(dstLoc, dstVar);
        }
        OutFromInDone(s, srcLoc, srcVar, dstLoc, dstVar, State(), changed);
      } else {
        OutFromInSkipped(s, srcLoc, srcVar, dstLoc, dstVar);
      }
    }

    method UpdateAllDFInFromOut(srcLoc: Loc, srcVar: Var, dstLoc: Loc, dstVar: Var) returns (changed: bool)
      requires Valid()
      modifies this, base
      ensures Valid()
      ensures forall slot :: Read(State().t, slot)
                == Read(old(State().t), slot)
                   + if slot == In(dstLoc, dstVar) then Read(old(State().t), Out(srcLoc, srcVar)) else {}
      ensures changed <==> !(Read(old(State().t), Out(srcLoc, srcVar)) <= Read(old(State().t), In(dstLoc, dstVar)))
      ensures forall l ::
                FlagsAt(inUpdatedVarMap, l) == FlagsAt(old(inUpdatedVarMap), l)
                + if changed && l == dstLoc then {dstVar} else {}
      ensures forall l :: FlagsAt(outUpdatedVarMap, l) == FlagsAt(old(outUpdatedVarMap), l)
      ensures Does(old(State()), AllInFromOut(srcLoc, srcVar, dstLoc, dstVar), changed)
    {
      hide Read, Join;
      changed := base.UnionPts(In(dstLoc, dstVar), Out(srcLoc, srcVar));
      if changed {
        SetVarDFInSetUpdated(dstLoc, dstVar);
      }
    }

    method UpdateAllDFInFromIn(srcLoc: Loc, srcVar: Var, dstLoc: Loc, dstVar: Var) returns (changed: bool)
      requires Valid()
      modifies this, base
      ensures Valid()
      ensures forall slot :: Read(State().t, slot)
                == Read(old(State().t), slot)
                   + if slot == In(dstLoc, dstVar) then Read(old(State().t), In(srcLoc, srcVar)) else {}
      ensures changed <==> !(Read(old(State().t), In(srcLoc, srcVar)) <= Read(old(State().t), In(dstLoc, dstVar)))
      ensures forall l ::
                FlagsAt(inUpdatedVarMap, l) == FlagsAt(old(inUpdatedVarMap), l)
                + if changed && l == dstLoc then {dstVar} else {}
      ensures forall l :: FlagsAt(outUpdatedVarMap, l) == FlagsAt(old(outUpdatedVarMap), l)
      ensures Does(old(State()), AllInFromIn(srcLoc, srcVar, dstLoc, dstVar), changed)
    {
      hide Read, Join;
      changed := base.UnionPts(In(dstLoc, dstVar), In(srcLoc, srcVar));
      if changed {
        SetVarDFInSetUpdated(dstLoc, dstVar);
      }
    }

    method UpdateTLVPts(srcLoc: Loc, srcVar: Var, dstVar: Var) returns (changed: bool)
      requires Valid()
      modifies this, base
      ensures Valid()
      ensures forall slot :: Read(State().t, slot)
                == Read(old(State().t), slot)
                   + if slot == Top(dstVar) && srcVar in FlagsAt(old(inUpdatedVarMap), srcLoc)
                     then Read(old(State().t), In(srcLoc, srcVar)) else {}
      ensures changed <==> srcVar in FlagsAt(old(inUpdatedVarMap), srcLoc)
                            && !(Read(old(State().t), In(srcLoc, srcVar)) <= Read(old(State().t), Top(dstVar)))
      ensures forall l ::
                FlagsAt(inUpdatedVarMap, l) == FlagsAt(old(inUpdatedVarMap), l)
                - if l == srcLoc then {srcVar} else {}
      ensures forall l :: FlagsAt(outUpdatedVarMap, l) == FlagsAt(old(outUpdatedVarMap), l)
      ensures Does(old(State()), ToTopLevel(srcLoc, srcVar, dstVar), changed)
    {
      hide Read, Join;
      var isNew := VarHasNewDFInPts(srcLoc, srcVar);
      changed := false;
      if isNew {
        RemoveVarFromDFInUpdatedSet(srcLoc, srcVar);
        changed := base.UnionPts(Top(dstVar), In(srcLoc, srcVar));
      }
    }

    method UpdateATVPts(srcVar: Var, dstLoc: Loc, dstVar: Var) returns (changed: bool)
      requires Valid()
      modifies this, base
      ensures Valid()
      ensures forall slot :: Read(State().t, slot)
                == Read(old(State().t), slot)
                   + if slot == Out(dstLoc, dstVar) then Read(old(State().t), Top(srcVar)) else {}
      ensures changed <==> !(Read(old(State().t), Top(srcVar)) <= Read(old(State().t), Out(dstLoc, dstVar)))
      ensures forall l :: FlagsAt(inUpdatedVarMap, l) == FlagsAt(old(inUpdatedVarMap), l)
      ensures forall l ::
                FlagsAt(outUpdatedVarMap, l) == FlagsAt(old(outUpdatedVarMap), l)
                + if changed && l == dstLoc then {dstVar} else {}
      ensures Does(old(State()), FromTopLevel(srcVar, dstLoc, dstVar), changed)
    {
      hide Read, Join;
      changed := base.UnionPts(Out(dstLoc, dstVar), Top(srcVar));
      if changed {
        SetVarDFOutSetUpdated(dstLoc, dstVar);
      }
    }

    /** Passes one more IN set on, after those of some other variables. */
    method PassOnVariable(loc: Loc, v: Var, ghost s: Inc, ghost seen: set<Var>) returns (changed: bool)
      requires Valid() && SameInc(State(), PassOn(s, loc, seen)) && v !in seen && v in FlagsAt(s.inNew, loc)
      modifies this, base
      ensures Valid() && SameInc(State(), PassOn(s, loc, seen + {v})) && (changed <==> NewOut(s.t, loc, v))
    {
      hide Read, SameInc, PassOn, JoinOut, Join, NewOut, Same, FlagsAt;
      ghost var t := State();
      changed := UpdateDFOutFromIn(loc, v, loc, v);
      PassOnOneMore(s, loc, seen, v, t, State());
    }

    /** Passes the flagged IN sets of a location on to its OUT set, except a strongly updated singleton,
        whose flag stays up. */
    method UpdateAllDFOutFromIn(loc: Loc, singleton: Var, strongUpdates: bool) returns (changed: bool)
      requires Valid()
      modifies this, base
      ensures Valid()
      ensures forall slot :: Read(State().t, slot)
                == Read(old(State().t), slot)
                   + if slot.Out? && slot.loc == loc && slot.v in FlagsAt(old(inUpdatedVarMap), loc)
                        && !(strongUpdates && slot.v == singleton)
                     then Read(old(State().t), In(loc, slot.v)) else {}
      ensures changed <==> exists slot :: Read(State().t, slot) != Read(old(State().t), slot)
      ensures forall l :: FlagsAt(inUpdatedVarMap, l)
                == if l != loc then FlagsAt(old(inUpdatedVarMap), l)
                   else if strongUpdates then FlagsAt(old(inUpdatedVarMap), l) * {singleton} else {}
      ensures forall l, v :: v in FlagsAt(outUpdatedVarMap, l)
                <==> v in FlagsAt(old(outUpdatedVarMap), l)
                     || (l == loc && Read(State().t, Out(l, v)) != Read(old(State().t), Out(l, v)))
      ensures Does(old(State()), AllOutFromIn(loc, singleton, strongUpdates), changed)
    {
      hide Read, SameInc, PassOn, JoinOut, Join, NewOut, Same, FlagsAt;
      ghost var s, op := State(), AllOutFromIn(loc, singleton, strongUpdates);
      changed := false;
      ghost var seen: set<Var> := {};
      PassOnNothing(s, loc);
      if loc in base.dfInPtsMap {
        var pts := FlagsAt(inUpdatedVarMap, loc);
        while pts != {}
          invariant FlagsAt(s.inNew, loc) == pts + seen + (Skipped(op) * FlagsAt(s.inNew, loc))
          invariant seen !! pts && seen !! Skipped(op)
          invariant Valid() && SameInc(State(), PassOn(s, loc, seen))
          invariant changed <==> exists v <- seen :: NewOut(s.t, loc, v)
        {
          var v :| v in pts;
          pts := pts - {v};
          if !(strongUpdates && v == singleton) {
            var grew := PassOnVariable(loc, v, s, seen);
            if grew {
              changed := true;
            }
            seen := seen + {v};
          }
        }
      }
      assert seen == FlagsAt(s.inNew, loc) - Skipped(op);
      FlagsPassed(s, loc, seen, State());
    }

    method ClearAllDFOutUpdatedVar(loc: Loc)
      requires Valid()
      modifies `outUpdatedVarMap
      ensures Valid()
      ensures forall l :: FlagsAt(outUpdatedVarMap, l) == if l == loc then {} else FlagsAt(old(outUpdatedVarMap), l)
      ensures Does(old(State()), ClearOut(loc), false)
    {
      if loc in base.dfOutPtsMap {
        var pts := FlagsAt(outUpdatedVarMap, loc);
        while pts != {}
          invariant pts == FlagsAt(outUpdatedVarMap, loc)
          invariant forall l :: l != loc ==> FlagsAt(outUpdatedVarMap, l) == FlagsAt(old(outUpdatedVarMap), l)
        {
          var v :| v in pts;
          pts := pts - {v};
          RemoveVarFromDFOutUpdatedSet(loc, v);
        }
      }
    }
  }

  lemma JoinOutNothing(s: Tables, loc: Loc)
    ensures Same(s, JoinOut(s, loc, {}))
  {
    forall slot ensures Read(s, slot) == Read(JoinOut(s, loc, {}), slot) {
      JoinOutReads(s, loc, {}, slot);
    }
  }

  /** Passing on one more variable after some others. */
  lemma JoinOutOneMore(s: Tables, loc: Loc, seen: set<Var>, v: Var, t: Tables, u: Tables)
    requires Same(t, JoinOut(s, loc, seen)) && v !in seen
    requires Same(u, Plain(t, OutFromIn(loc, v, loc, v)))
    ensures Same(u, JoinOut(s, loc, seen + {v}))
    ensures PlainGrows(t, OutFromIn(loc, v, loc, v)) <==> NewOut(s, loc, v)
  {
    hide Read, JoinOut, Join;
    JoinOutReads(s, loc, seen, In(loc, v));
    JoinOutReads(s, loc, seen, Out(loc, v));
    assert Read(t, In(loc, v)) == Read(s, In(loc, v)) && Read(t, Out(loc, v)) == Read(s, Out(loc, v));
    forall slot ensures Read(u, slot) == Read(JoinOut(s, loc, seen + {v}), slot) {
      JoinOutReads(s, loc, seen, slot);
      JoinOutReads(s, loc, seen + {v}, slot);
      JoinReads(t, Out(loc, v), Read(t, In(loc, v)), slot);
      assert Read(t, slot) == Read(JoinOut(s, loc, seen), slot);
    }
  }

  /** What the tables hold once the IN sets of some variables have been passed on, those without an IN
      set among them or not. */
  lemma AllPassed(s: Tables, loc: Loc, seen: set<Var>, t: Tables)
    requires Same(t, JoinOut(s, loc, seen))
    ensures forall slot :: Read(t, slot)
              == Read(s, slot)
                 + if slot.Out? && slot.loc == loc && slot.v in seen then Read(s, In(loc, slot.v)) else {}
    ensures (exists v <- seen :: NewOut(s, loc, v)) <==> exists slot :: Read(t, slot) != Read(s, slot)
    ensures forall v :: v !in RowAt(s.dfIn, loc) ==> Read(s, In(loc, v)) == {}
  {
    hide JoinOut;
    forall slot ensures Read(t, slot) == Read(s, slot)
        + if slot.Out? && slot.loc == loc && slot.v in seen then Read(s, In(loc, slot.v)) else {} {
      JoinOutReads(s, loc, seen, slot);
    }
    if v :| v in seen && NewOut(s, loc, v) {
      assert Read(t, Out(loc, v)) != Read(s, Out(loc, v));
    }
    if slot :| Read(t, slot) != Read(s, slot) {
      assert NewOut(s, loc, slot.v);
    }
  }

  lemma FlagsPassed(s: Inc, loc: Loc, seen: set<Var>, t: Inc)
    requires SameInc(t, PassOn(s, loc, seen))
    ensures forall slot :: Read(t.t, slot)
              == Read(s.t, slot)
                 + if slot.Out? && slot.loc == loc && slot.v in seen then Read(s.t, In(loc, slot.v)) else {}
    ensures (exists v <- seen :: NewOut(s.t, loc, v)) <==> exists slot :: Read(t.t, slot) != Read(s.t, slot)
    ensures forall l :: FlagsAt(t.inNew, l) == FlagsAt(s.inNew, l) - if l == loc then seen else {}
    ensures forall l, v :: v in FlagsAt(t.outNew, l)
              <==> v in FlagsAt(s.outNew, l) || (l == loc && Read(t.t, Out(l, v)) != Read(s.t, Out(l, v)))
  {
    hide Read, JoinOut;
    AllPassed(s.t, loc, seen, t.t);
    forall l, v ensures v in FlagsAt(t.outNew, l)
        <==> v in FlagsAt(s.outNew, l) || (l == loc && Read(t.t, Out(l, v)) != Read(s.t, Out(l, v))) {
      PassOnFlags(s, loc, seen, l);
      assert v in NewVars(s.t, loc, seen) <==> v in seen && NewOut(s.t, loc, v);
    }
    forall l ensures FlagsAt(t.inNew, l) == FlagsAt(s.inNew, l) - if l == loc then seen else {} {
      PassOnFlags(s, loc, seen, l);
    }
  }

  lemma OutFromInDone(s: Inc, srcLoc: Loc, srcVar: Var, dstLoc: Loc, dstVar: Var, r: Inc, changed: bool)
    requires srcVar in FlagsAt(s.inNew, srcLoc)
    requires Same(r.t, Join(s.t, Out(dstLoc, dstVar), Read(s.t, In(srcLoc, srcVar))))
    requires changed <==> !(Read(s.t, In(srcLoc, srcVar)) <= Read(s.t, Out(dstLoc, dstVar)))
    requires forall l :: FlagsAt(r.inNew, l) == FlagsAt(s.inNew, l) - (if l == srcLoc then {srcVar} else {})
    requires forall l ::
               FlagsAt(r.outNew, l) == FlagsAt(s.outNew, l)
               + (if changed && l == dstLoc then {dstVar} else {})
    ensures SameInc(r, IncStep(s, OutFromIn(srcLoc, srcVar, dstLoc, dstVar)))
    ensures changed <==> IncGrows(s, OutFromIn(srcLoc, srcVar, dstLoc, dstVar))
  {
    hide Read, Join;
  }

  lemma OutFromInSkipped(s: Inc, srcLoc: Loc, srcVar: Var, dstLoc: Loc, dstVar: Var)
    requires srcVar !in FlagsAt(s.inNew, srcLoc)
    ensures SameInc(s, IncStep(s, OutFromIn(srcLoc, srcVar, dstLoc, dstVar)))
    ensures !IncGrows(s, OutFromIn(srcLoc, srcVar, dstLoc, dstVar))
  {
  }

  lemma OutFromInEffect(t: Inc, loc: Loc, v: Var, u: Inc)
    requires v in FlagsAt(t.inNew, loc) && SameInc(u, IncStep(t, OutFromIn(loc, v, loc, v)))
    ensures Same(u.t, Plain(t.t, OutFromIn(loc, v, loc, v)))
    ensures IncGrows(t, OutFromIn(loc, v, loc, v)) <==> NewOut(t.t, loc, v)
    ensures forall l :: FlagsAt(u.inNew, l) == FlagsAt(t.inNew, l) - (if l == loc then {v} else {})
    ensures forall l ::
              FlagsAt(u.outNew, l) == FlagsAt(t.outNew, l)
              + (if NewOut(t.t, loc, v) && l == loc then {v} else {})
  {
    hide Read, Join;
  }

  lemma PassOnNothing(s: Inc, loc: Loc)
    ensures SameInc(s, PassOn(s, loc, {}))
  {
    JoinOutNothing(s.t, loc);
  }

  lemma PassOnFlags(s: Inc, loc: Loc, vars: set<Var>, l: Loc)
    ensures FlagsAt(PassOn(s, loc, vars).inNew, l) == FlagsAt(s.inNew, l) - (if l == loc then vars else {})
    ensures FlagsAt(PassOn(s, loc, vars).outNew, l) == FlagsAt(s.outNew, l)
        + (if l == loc then NewVars(s.t, loc, vars) else {})
  {
  }

  lemma FlagsOneMore(s: Inc, loc: Loc, seen: set<Var>, v: Var, t: Inc, u: Inc, l: Loc)
    requires SameInc(t, PassOn(s, loc, seen)) && NewOut(t.t, loc, v) == NewOut(s.t, loc, v)
    requires FlagsAt(u.inNew, l) == FlagsAt(t.inNew, l) - (if l == loc then {v} else {})
    requires FlagsAt(u.outNew, l) == FlagsAt(t.outNew, l) + (if NewOut(t.t, loc, v) && l == loc then {v} else {})
    ensures FlagsAt(u.inNew, l) == FlagsAt(PassOn(s, loc, seen + {v}).inNew, l)
    ensures FlagsAt(u.outNew, l) == FlagsAt(PassOn(s, loc, seen + {v}).outNew, l)
  {
    hide Same, NewOut, PassOn, NewVars, FlagsAt;
    PassOnFlags(s, loc, seen, l);
    PassOnFlags(s, loc, seen + {v}, l);
    NewVarsOneMore(s.t, loc, seen, v);
  }

  lemma NewVarsOneMore(s: Tables, loc: Loc, seen: set<Var>, v: Var)
    ensures NewVars(s, loc, seen + {v}) == NewVars(s, loc, seen) + (if NewOut(s, loc, v) then {v} else {})
  {
  }

  lemma PassOnOneMore(s: Inc, loc: Loc, seen: set<Var>, v: Var, t: Inc, u: Inc)
    requires SameInc(t, PassOn(s, loc, seen)) && v !in seen && v in FlagsAt(s.inNew, loc)
    requires SameInc(u, IncStep(t, OutFromIn(loc, v, loc, v)))
    ensures SameInc(u, PassOn(s, loc, seen + {v}))
    ensures IncGrows(t, OutFromIn(loc, v, loc, v)) <==> NewOut(s.t, loc, v)
  {
    hide Read, JoinOut, Join, IncStep, IncGrows;
    JoinOutReads(s.t, loc, seen, In(loc, v));
    JoinOutReads(s.t, loc, seen, Out(loc, v));
    assert Read(t.t, In(loc, v)) == Read(s.t, In(loc, v)) && Read(t.t, Out(loc, v)) == Read(s.t, Out(loc, v));
    OutFromInEffect(t, loc, v, u);
    JoinOutOneMore(s.t, loc, seen, v, t.t, u.t);
    var r := PassOn(s, loc, seen + {v});
    forall l ensures FlagsAt(u.inNew, l) == FlagsAt(r.inNew, l) && FlagsAt(u.outNew, l) == FlagsAt(r.outNew, l) {
      FlagsOneMore(s, loc, seen, v, t, u, l);
    }
  }
}
