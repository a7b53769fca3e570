/** The whole way of a migration: split into phases, build the plan, resolve the execution order, run it. */
module MigrationPipeline {
  import opened Options
  import opened Database
  import opened DependencyGraphs
  import opened ExecutionPlanner
  import opened LifecycleSplit

  lemma SqlsAppend(a: seq<Op>, b: seq<Op>)
    ensures Sqls(a + b) == Sqls(a) + Sqls(b)
  {
    assert Sqls(a + b) == Sqls(a) + Sqls(b);
  }

  lemma WrapSqls(op: Op, stmts: seq<Stmt>)
    ensures Sqls(Wrap(op, stmts)) == stmts
    ensures op.dependencies == [] ==> NoExplicitDependencies(Wrap(op, stmts))
  {
    WrapAt(op, stmts);
    hide Wrap;
  }

  lemma {:induction false} WrapAt(op: Op, stmts: seq<Stmt>)
    ensures |Wrap(op, stmts)| == |stmts|
    ensures forall i :: 0 <= i < |stmts| ==>
              Wrap(op, stmts)[i] == Operation(stmts[i], if stmts[i] == op.sql then op.dependencies else [])
  {
    if stmts != [] {
      WrapAt(op, stmts[1..]);
    }
  }

  lemma ExpandAppend(typeMap: TypeMap, ops: seq<Stmt>, s: Stmt)
    ensures Expand(typeMap, ops + [s]) == Expand(typeMap, ops) + Rewrite(typeMap, s).safe
  {
    hide Rewrite;
    ExpandBoth(typeMap, ops, [s]);
    assert [s][1..] == [];
  }

  lemma MigrateAppend(typeMap: TypeMap, ops: seq<Stmt>, s: Stmt)
    ensures Migrate(typeMap, ops + [s]) == Migrate(typeMap, ops) + Rewrite(typeMap, s).data
  {
    hide Rewrite;
    MigrateBoth(typeMap, ops, [s]);
    assert [s][1..] == [];
  }

  lemma ContractAppend(typeMap: TypeMap, ops: seq<Stmt>, s: Stmt)
    ensures Contract(typeMap, ops + [s]) == Contract(typeMap, ops) + Rewrite(typeMap, s).breaking
  {
    hide Rewrite;
    ContractBoth(typeMap, ops, [s]);
    assert [s][1..] == [];
  }

  lemma DistributeSnoc(typeMap: TypeMap, ops: seq<Op>)
    requires ops != []
    ensures var init, op := ops[..|ops| - 1], ops[|ops| - 1];
            && Sqls(ops) == Sqls(init) + [op.sql]
            && Distribute(typeMap, ops) ==
               var before, parts := Distribute(typeMap, init), Rewrite(typeMap, op.sql);
               PhaseOps(before.expand + Wrap(op, parts.safe), before.data + Wrap(op, parts.data),
                        before.contract + Wrap(op, parts.breaking))
  {
    hide Rewrite, Wrap;
    var init, op := ops[..|ops| - 1], ops[|ops| - 1];
    assert ops == init + [op];
    SqlsSnoc(init, op);
  }

  lemma {:induction false} DistributeExpand(typeMap: TypeMap, ops: seq<Op>)
    ensures Sqls(Distribute(typeMap, ops).expand) == Expand(typeMap, Sqls(ops))
  {
    if ops != [] {
      var init, op := ops[..|ops| - 1], ops[|ops| - 1];
      DistributeSnoc(typeMap, ops);
      DistributeExpand(typeMap, init);
      hide Distribute, Rewrite, Wrap, Expand, Sqls;
      ExpandAppend(typeMap, Sqls(init), op.sql);
      WrappedAppend(Distribute(typeMap, init).expand, op, Rewrite(typeMap, op.sql).safe);
    }
  }

  lemma {:induction false} DistributeMigrate(typeMap: TypeMap, ops: seq<Op>)
    ensures Sqls(Distribute(typeMap, ops).data) == Migrate(typeMap, Sqls(ops))
  {
    if ops != [] {
      var init, op := ops[..|ops| - 1], ops[|ops| - 1];
      DistributeSnoc(typeMap, ops);
      DistributeMigrate(typeMap, init);
      hide Distribute, Rewrite, Wrap, Migrate, Sqls;
      MigrateAppend(typeMap, Sqls(init), op.sql);
      WrappedAppend(Distribute(typeMap, init).data, op, Rewrite(typeMap, op.sql).data);
    }
  }

  lemma {:induction false} DistributeContract(typeMap: TypeMap, ops: seq<Op>)
    ensures Sqls(Distribute(typeMap, ops).contract) == Contract(typeMap, Sqls(ops))
  {
    if ops != [] {
      var init, op := ops[..|ops| - 1], ops[|ops| - 1];
      DistributeSnoc(typeMap, ops);
      DistributeContract(typeMap, init);
      hide Distribute, Rewrite, Wrap, Contract, Sqls;
      ContractAppend(typeMap, Sqls(init), op.sql);
      WrappedAppend(Distribute(typeMap, init).contract, op, Rewrite(typeMap, op.sql).breaking);
    }
  }

  /** The phase objects carry exactly the statements of the three phase scripts. */
  lemma DistributeScripts(typeMap: TypeMap, ops: seq<Op>)
    ensures Sqls(Distribute(typeMap, ops).expand) == Expand(typeMap, Sqls(ops))
    ensures Sqls(Distribute(typeMap, ops).data) == Migrate(typeMap, Sqls(ops))
    ensures Sqls(Distribute(typeMap, ops).contract) == Contract(typeMap, Sqls(ops))
  {
    DistributeExpand(typeMap, ops);
    DistributeMigrate(typeMap, ops);
    DistributeContract(typeMap, ops);
  }

  lemma WrappedAppend(before: seq<Op>, op: Op, stmts: seq<Stmt>)
    ensures Sqls(before + Wrap(op, stmts)) == Sqls(before) + stmts
  {
    WrapSqls(op, stmts);
    SqlsAppend(before, Wrap(op, stmts));
  }

  lemma {:induction false} DistributeDependencies(typeMap: TypeMap, ops: seq<Op>)
    requires NoExplicitDependencies(ops)
    ensures var all := Distribute(typeMap, ops);
            NoExplicitDependencies(all.expand + all.data + all.contract)
  {
    hide Rewrite, Wrap;
    if ops != [] {
      var op := ops[|ops| - 1];
      var parts := Rewrite(typeMap, op.sql);
      DistributeDependencies(typeMap, ops[..|ops| - 1]);
      assert op.dependencies == [];
      WrapSqls(op, parts.safe);
      WrapSqls(op, parts.data);
      WrapSqls(op, parts.breaking);
      var before := Distribute(typeMap, ops[..|ops| - 1]);
      forall o | o in before.expand + before.data + before.contract ensures o.dependencies == [] {
      }
    }
  }

  lemma SplitPhasesShape(typeMap: TypeMap, ops: seq<Op>)
    ensures WellFormedPhases(SplitPhases(typeMap, ops))
    ensures Concatenation(SplitPhases(typeMap, ops)) == SplitScript(typeMap, Sqls(ops))
    ensures NoExplicitDependencies(ops) ==> NoExplicitDependencies(AllOperations(SplitPhases(typeMap, ops)))
  {
    var all := Distribute(typeMap, ops);
    var phases := MakePhase(EXPAND, all.expand) + MakePhase(DATA, all.data) + MakePhase(CONTRACT, all.contract);
    assert SplitPhases(typeMap, ops) == phases;
    hide *;
    DistributeScripts(typeMap, ops);
    FirstPhase(all.expand);
    AppendPhase(MakePhase(EXPAND, all.expand), DATA, all.data);
    AppendPhase(MakePhase(EXPAND, all.expand) + MakePhase(DATA, all.data), CONTRACT, all.contract);
    assert Concatenation(phases) == SplitScript(typeMap, Sqls(ops)) by {
      SplitScriptParts(typeMap, Sqls(ops));
    }
    if NoExplicitDependencies(ops) {
      DistributeDependencies(typeMap, ops);
    }
  }

  /** Each phase has the script of its name, and the phases that would be empty are left out. */
  lemma SplitPhaseNames(typeMap: TypeMap, ops: seq<Op>)
    ensures var phases, stmts := SplitPhases(typeMap, ops), Sqls(ops);
            && (forall p :: p in phases ==> p.order != [] && p.order == ScriptOf(p.name, typeMap, stmts))
            && (forall i, j :: 0 <= i < j < |phases| ==> phases[i].name != phases[j].name)
  {
    hide Distribute, ScriptOf, Sqls;
    var all, stmts := Distribute(typeMap, ops), Sqls(ops);
    DistributeScripts(typeMap, ops);
    ScriptsOfPhases(typeMap, stmts);
    NamedPhase(EXPAND, all.expand);
    NamedPhase(DATA, all.data);
    NamedPhase(CONTRACT, all.contract);
    hide MakePhase, Expand, Migrate, Contract;
  }

  function ScriptOf(name: PhaseName, typeMap: TypeMap, stmts: seq<Stmt>): seq<Stmt> {
    match name
    case EXPAND => Expand(typeMap, stmts)
    case DATA => Migrate(typeMap, stmts)
    case CONTRACT => Contract(typeMap, stmts)
    case FIX => []
  }

  lemma ScriptsOfPhases(typeMap: TypeMap, stmts: seq<Stmt>)
    ensures ScriptOf(EXPAND, typeMap, stmts) == Expand(typeMap, stmts)
    ensures ScriptOf(DATA, typeMap, stmts) == Migrate(typeMap, stmts)
    ensures ScriptOf(CONTRACT, typeMap, stmts) == Contract(typeMap, stmts)
  {
  }

  lemma NamedPhase(name: PhaseName, ops: seq<Op>)
    ensures |MakePhase(name, ops)| <= 1
    ensures forall p :: p in MakePhase(name, ops) ==> p.name == name && p.order == Sqls(ops) != []
  {
    hide Sqls;
    assert ops != [] ==> |Sqls(ops)| == |ops|;
  }

  lemma SplitScriptParts(typeMap: TypeMap, stmts: seq<Stmt>)
    ensures SplitScript(typeMap, stmts) == Expand(typeMap, stmts) + Migrate(typeMap, stmts) + Contract(typeMap, stmts)
  {
  }

  lemma FirstPhase(e: seq<Op>)
    ensures WellFormedPhases(MakePhase(EXPAND, e))
    ensures Concatenation(MakePhase(EXPAND, e)) == Sqls(e)
    ensures AllOperations(MakePhase(EXPAND, e)) == e
  {
    AppendPhase([], EXPAND, e);
    assert [] + MakePhase(EXPAND, e) == MakePhase(EXPAND, e);
  }

  lemma AppendPhase(phases: seq<Phase<Stmt>>, name: PhaseName, ops: seq<Op>)
    ensures Concatenation(phases + MakePhase(name, ops)) == Concatenation(phases) + Sqls(ops)
    ensures AllOperations(phases + MakePhase(name, ops)) == AllOperations(phases) + ops
    ensures WellFormedPhases(phases) ==> WellFormedPhases(phases + MakePhase(name, ops))
  {
    if ops == [] {
      assert phases + MakePhase(name, ops) == phases;
    } else {
      var all := phases + MakePhase(name, ops);
      assert all[..|all| - 1] == phases;
    }
  }

  // --- no statement occurs twice ---

  lemma NamesOf(s: Stmt)
    ensures (s.table, s.column) in Footprint(s)
  {
  }

  lemma {:induction false} ScriptMemberNames(script: seq<Stmt>, s: Stmt)
    requires s in script
    ensures Footprint(s) <= Footprints(script)
  {
    if s != script[0] {
      ScriptMemberNames(script[1..], s);
    }
  }

  lemma {:induction false} SplitHasNoRepetition(typeMap: TypeMap, ops: seq<Stmt>, s: Stmt)
    requires PairwiseDisjoint(ops)
    ensures multiset(SplitScript(typeMap, ops))[s] <= 1
  {
    if ops != [] {
      hide Rewrite, Names;
      SplitHasNoRepetition(typeMap, ops[1..], s);
      AloneHasNoRepetition(typeMap, ops[0], s);
      SplitRegroups(typeMap, ops);
      AloneAndRestDiffer(typeMap, ops, s);
    }
  }

  lemma SplitRegroups(typeMap: TypeMap, ops: seq<Stmt>)
    requires ops != []
    ensures multiset(SplitScript(typeMap, ops)) ==
            multiset(Alone(typeMap, ops[0])) + multiset(SplitScript(typeMap, ops[1..]))
  {
    hide Rewrite;
  }

  /** A statement names a column, so it cannot come from two operations that share none. */
  lemma AloneAndRestDiffer(typeMap: TypeMap, ops: seq<Stmt>, s: Stmt)
    requires ops != [] && PairwiseDisjoint(ops)
    ensures s in Alone(typeMap, ops[0]) ==> s !in SplitScript(typeMap, ops[1..])
  {
    var e, m, c := Expand(typeMap, ops[1..]), Migrate(typeMap, ops[1..]), Contract(typeMap, ops[1..]);
    RewriteNames(typeMap, ops[0]);
    SplitNames(typeMap, ops[1..]);
    NamesOf(s);
    hide Rewrite, Names, Footprint, Footprints, Expand, Migrate, Contract;
    FootprintsAppend(e, m);
    FootprintsAppend(e + m, c);
    if s in Alone(typeMap, ops[0]) {
      ScriptMemberNames(Alone(typeMap, ops[0]), s);
      if s in e + m + c {
        ScriptMemberNames(e + m + c, s);
        assert false;
      }
    }
  }

  lemma AloneHasNoRepetition(typeMap: TypeMap, op: Stmt, s: Stmt)
    ensures multiset(Alone(typeMap, op))[s] <= 1
  {
    AloneAreDistinct(typeMap, op);
    DistinctAtMostOnce(Alone(typeMap, op), s);
  }

  lemma AloneAreDistinct(typeMap: TypeMap, op: Stmt)
    ensures var alone := Alone(typeMap, op); forall i, k :: 0 <= i < k < |alone| ==> alone[i] != alone[k]
  {
  }

  lemma {:induction false} DistinctAtMostOnce<T(!new)>(s: seq<T>, x: T)
    requires forall i, k :: 0 <= i < k < |s| ==> s[i] != s[k]
    ensures multiset(s)[x] <= 1
  {
    if s != [] {
      var init, last := s[..|s| - 1], s[|s| - 1];
      DistinctAtMostOnce(init, x);
      assert s == init + [last];
      assert last !in multiset(init);
    }
  }

  lemma {:induction false} NoRepetition<T(!new)>(s: seq<T>)
    requires forall x :: multiset(s)[x] <= 1
    ensures FirstOccurrences(s) == s
  {
    if s != [] {
      var init, last := s[..|s| - 1], s[|s| - 1];
      assert s == init + [last];
      assert multiset(s) == multiset(init) + multiset{last};
      forall x ensures multiset(init)[x] <= 1 {
        assert multiset(s)[x] <= 1;
      }
      NoRepetition(init);
      assert multiset(s)[last] <= 1;
    }
  }

  lemma {:induction false} PhasesShareNothing<T(!new)>(phases: seq<Phase<T>>, x: T)
    requires multiset(Concatenation(phases))[x] <= 1
    ensures forall i, j :: 0 <= i < j < |phases| && x in phases[i].order ==> x !in phases[j].order
  {
    if phases != [] {
      var init, last := phases[..|phases| - 1], phases[|phases| - 1];
      assert multiset(Concatenation(phases)) == multiset(Concatenation(init)) + multiset(last.order);
      PhasesShareNothing(init, x);
      forall i, j | 0 <= i < j < |phases| && x in phases[i].order ensures x !in phases[j].order {
        assert phases[i] == init[i];
        if j == |phases| - 1 {
          ConcatenationElements(init, x);
        } else {
          assert phases[j] == init[j];
        }
      }
    }
  }

  /** The plan of a split migration passes `validatePlan`, and the planner executes it in exactly the
      order EXPAND, DATA, CONTRACT. */
  lemma SplitPlansResolve(typeMap: TypeMap, ops: seq<Op>)
    requires NoExplicitDependencies(ops) && PairwiseDisjoint(Sqls(ops))
    ensures var plan := BuiltPlan(SplitPhases(typeMap, ops), ops);
            && !Cyclic(plan.dependencies)
            && DepsFirst(Induced(PlannerGraph(plan), plan.executionOrder), plan.executionOrder)
            && FirstOccurrences(plan.executionOrder) == SplitScript(typeMap, Sqls(ops))
  {
    var phases := SplitPhases(typeMap, ops);
    var plan := BuiltPlan(phases, ops);
    SplitPhasesShape(typeMap, ops);
    forall s: Stmt ensures multiset(plan.executionOrder)[s] <= 1 {
      SplitHasNoRepetition(typeMap, Sqls(ops), s);
    }
    NoRepetition(plan.executionOrder);
    forall i, j, s | 0 <= i < j < |phases| && s in phases[i].order ensures s !in phases[j].order {
      PhasesShareNothing(phases, s);
    }
    assert !SharedStatement(phases);
    ValidPlansAreTheOrderableOnes(phases, ops);
    PhasedPlanResolution(plan);
  }

  /** The migration works as written, or at least renames no column to its own name. */
  predicate Comparable(cast: Cast, ops: seq<Stmt>, db: Db) {
    Run(cast, ops, Some(db)).Some? || NoSelfRename(ops)
  }

  /** End to end: the resolved order of a split migration exists, and executing it gives what the
      original migration gives exactly when that fails or every statement is `Faithful` at the start. */
  method PlanMigration(splitter: LifecycleSplitter, ops: seq<Op>, types: Option<TypeMap>) returns (r: Resolution<Stmt>)
    requires NoExplicitDependencies(ops) && PairwiseDisjoint(Sqls(ops))
    modifies splitter
    ensures r.Resolved?
    ensures forall cast, db | LawfulCast(cast) && WellTyped(cast, db) && Comparable(cast, Sqls(ops), db) ::
              Run(cast, r.operations, Some(db)) == Run(cast, Sqls(ops), Some(db)) <==>
              Run(cast, Sqls(ops), Some(db)).None? || AllFaithful(splitter.typeMap, db, Sqls(ops))
  {
    var phases := splitter.Split(ops, types);
    var plan := BuildFromPhases(phases, ops);
    SplitPlansResolve(splitter.typeMap, ops);
    r := ResolveExecutionOrder(plan);
    forall cast, db | LawfulCast(cast) && WellTyped(cast, db) && Comparable(cast, Sqls(ops), db)
      ensures Run(cast, r.operations, Some(db)) == Run(cast, Sqls(ops), Some(db)) <==>
              Run(cast, Sqls(ops), Some(db)).None? || AllFaithful(splitter.typeMap, db, Sqls(ops))
    {
      if Run(cast, Sqls(ops), Some(db)).Some? {
        SelfRenamesFail(cast, Sqls(ops), db);
      }
      SplitIsExact(cast, splitter.typeMap, Sqls(ops), db);
    }
  }
}
