/** The expand / migrate / contract rewriting of a migration (lifecycle-split.ts). */
module LifecycleSplit {
  import opened Options
  import opened Database
  import opened ExecutionPlanner

  type TypeMap = map<string, map<string, string>>

  type Op = Operation<Stmt>

  datatype LifecycleSet = LifecycleSet(safe: seq<Stmt>, data: seq<Stmt>, breaking: seq<Stmt>)

  /** The type the rename rewriter gives the new column. */
  function DetectedType(typeMap: TypeMap, table: string, column: string): string {
    if table in typeMap && column in typeMap[table] && typeMap[table][column] != ""
    then typeMap[table][column] else "VARCHAR"
  }

  predicate IsWordChar(c: char) {
    'a' <= c <= 'z' || 'A' <= c <= 'Z' || '0' <= c <= '9' || c == '_'
  }

  /** The leading word of a type, all that the type-change rewriter keeps of it. */
  function LeadingWord(ty: string): string {
    if ty == "" || !IsWordChar(ty[0]) then "" else [ty[0]] + LeadingWord(ty[1..])
  }

  function TempColumn(column: string): string {
    column + "_v2"
  }

  datatype Category = SAFE | DATA_CHANGE | BREAKING

  function Lower(s: string): string {
    if s == "" then ""
    else [if 'A' <= s[0] <= 'Z' then ((s[0] as int) + 32) as char else s[0]] + Lower(s[1..])
  }

  predicate DmlWordAt(name: string, i: nat) {
    i + 6 <= |name| && Lower(name[i..i + 6]) in {"update", "insert", "delete"}
  }

  /** The text of the statement is searched for these words, names included. */
  predicate MentionsDml(name: string) {
    exists i: nat | i <= |name| :: DmlWordAt(name, i)
  }

  /** Statements that need no rewriting: nullable additions are safe, updates are data, and the rest breaks, unless a
      name makes it look like data. */
  function Classify(s: Stmt): Category {
    match s
    case AddColumn(_, _, _) => SAFE
    case CopyColumn(_, _, _) => DATA_CHANGE
    case CastColumn(_, _, _, _) => DATA_CHANGE
    case DropColumn(t, c) => if MentionsDml(t) || MentionsDml(c) then DATA_CHANGE else BREAKING
    case _ => BREAKING
  }

  /** How one statement is rewritten. A NOT NULL addition is recognised by ADD COLUMN but its parts are
      extracted with a pattern that lacks COLUMN, so it always falls back to the statement itself. */
  function Rewrite(typeMap: TypeMap, s: Stmt): LifecycleSet {
    match s
    case AddColumnNotNull(_, _, _, _) => LifecycleSet([s], [], [])
    case RenameColumn(t, from, newName) =>
      LifecycleSet(
        [AddColumn(t, newName, DetectedType(typeMap, t, from))],
        [CopyColumn(t, newName, from)],
        [DropColumn(t, from)])
    case ChangeType(t, c, ty) =>
      if LeadingWord(ty) == "" then LifecycleSet([s], [], [])
      else LifecycleSet(
        [AddColumn(t, TempColumn(c), LeadingWord(ty))],
        [CastColumn(t, TempColumn(c), c, LeadingWord(ty))],
        [DropColumn(t, c), RenameColumn(t, TempColumn(c), c)])
    case _ =>
      match Classify(s)
      case SAFE => LifecycleSet([s], [], [])
      case DATA_CHANGE => LifecycleSet([], [s], [])
      case BREAKING => LifecycleSet([], [], [s])
  }

  // --- the statements of each phase ---

  function Expand(typeMap: TypeMap, ops: seq<Stmt>): seq<Stmt> {
    if ops == [] then [] else Rewrite(typeMap, ops[0]).safe + Expand(typeMap, ops[1..])
  }

  function Migrate(typeMap: TypeMap, ops: seq<Stmt>): seq<Stmt> {
    if ops == [] then [] else Rewrite(typeMap, ops[0]).data + Migrate(typeMap, ops[1..])
  }

  function Contract(typeMap: TypeMap, ops: seq<Stmt>): seq<Stmt> {
    if ops == [] then [] else Rewrite(typeMap, ops[0]).breaking + Contract(typeMap, ops[1..])
  }

  function SplitScript(typeMap: TypeMap, ops: seq<Stmt>): seq<Stmt> {
    Expand(typeMap, ops) + Migrate(typeMap, ops) + Contract(typeMap, ops)
  }

  /** The three parts of one statement run one after another. */
  function Alone(typeMap: TypeMap, s: Stmt): seq<Stmt> {
    Rewrite(typeMap, s).safe + Rewrite(typeMap, s).data + Rewrite(typeMap, s).breaking
  }

  /** The columns a statement names, counting the temporary column of a type change. */
  function Names(s: Stmt): set<Name> {
    Footprint(s) + match s case ChangeType(t, c, _) => {(t, TempColumn(c))} case _ => {}
  }

  function AllNames(ops: seq<Stmt>): set<Name> {
    if ops == [] then {} else Names(ops[0]) + AllNames(ops[1..])
  }

  /** No two statements name a common column. */
  ghost predicate PairwiseDisjoint(ops: seq<Stmt>) {
    ops == [] || (Names(ops[0]) !! AllNames(ops[1..]) && PairwiseDisjoint(ops[1..]))
  }

  /** What a caller can check beforehand: a renamed column has the type the type map says, a new type is
      a single word, and no column has the name of the temporary. */
  predicate Faithful(typeMap: TypeMap, db: Db, s: Stmt) {
    match s
    case RenameColumn(t, from, _) =>
      (t, from) in db.columns ==> DetectedType(typeMap, t, from) == db.columns[(t, from)].ty
    case ChangeType(t, c, ty) =>
      LeadingWord(ty) == "" || (LeadingWord(ty) == ty && (t, TempColumn(c)) !in db.columns)
    case _ => true
  }

  // --- one statement ---

  lemma RunOne(cast: Cast, s: Stmt, db: Option<Db>)
    requires db.Some?
    ensures Run(cast, [s], db) == Exec(cast, s, db.value)
  {
    assert [s][1..] == [];
    assert Run(cast, [], Exec(cast, s, db.value)) == Exec(cast, s, db.value);
  }

  lemma RunThree(cast: Cast, a: Stmt, b: Stmt, rest: seq<Stmt>, db: Db)
    ensures Run(cast, [a] + [b] + rest, Some(db)) ==
            var r := Exec(cast, a, db);
            if r.None? then None else Run(cast, rest, Exec(cast, b, r.value))
  {
    assert ([a] + [b] + rest)[1..] == [b] + rest;
    assert ([b] + rest)[1..] == rest;
  }

  lemma RenameAlone(cast: Cast, typeMap: TypeMap, s: Stmt, db: Db)
    requires s.RenameColumn? && LawfulCast(cast) && WellTyped(cast, db) && Exec(cast, s, db).Some?
    ensures Run(cast, Alone(typeMap, s), Some(db)).Some?
    ensures Run(cast, Alone(typeMap, s), Some(db)) == Exec(cast, s, db) <==> Faithful(typeMap, db, s)
  {
    var RenameColumn(t, from, newName) := s;
    var ty := DetectedType(typeMap, t, from);
    var data := ColumnData(ty, CastAll(cast, ty, db.columns[(t, from)].values));
    var copied := db.(columns := db.columns[(t, newName) := data]);
    RunThree(cast, AddColumn(t, newName, ty), CopyColumn(t, newName, from), [DropColumn(t, from)], db);
    CopyToNew(cast, t, from, newName, ty, db);
    RunOne(cast, DropColumn(t, from), Some(copied));
    DropOld(cast, t, from, newName, data, db);
    assert ty == db.columns[(t, from)].ty ==> data == db.columns[(t, from)];
  }

  /** The EXPAND and DATA parts of a rename fill the new column. */
  lemma CopyToNew(cast: Cast, t: string, from: string, newName: string, ty: string, db: Db)
    requires t in db.rows && (t, from) in db.columns && (t, newName) !in db.columns
    requires LawfulCast(cast) && WellTyped(cast, db)
    ensures var data := ColumnData(ty, CastAll(cast, ty, db.columns[(t, from)].values));
            var added := Exec(cast, AddColumn(t, newName, ty), db);
            && added.Some?
            && Exec(cast, CopyColumn(t, newName, from), added.value)
               == Some(db.(columns := db.columns[(t, newName) := data]))
  {
    var data := ColumnData(ty, CastAll(cast, ty, db.columns[(t, from)].values));
    var added := Exec(cast, AddColumn(t, newName, ty), db).value;
    assert Exec(cast, CopyColumn(t, newName, from), added).value.columns == db.columns[(t, newName) := data];
  }

  /** The CONTRACT part of a rename leaves the renamed table up to the data in the new column. */
  lemma DropOld(cast: Cast, t: string, from: string, newName: string, data: ColumnData, db: Db)
    requires (t, from) in db.columns && (t, newName) !in db.columns && Exec(cast, RenameColumn(t, from, newName), db).Some?
    ensures var dropped := Exec(cast, DropColumn(t, from), db.(columns := db.columns[(t, newName) := data]));
            dropped.Some? &&
            (dropped == Exec(cast, RenameColumn(t, from, newName), db) <==> data == db.columns[(t, from)])
  {
    var dropped := Exec(cast, DropColumn(t, from), db.(columns := db.columns[(t, newName) := data]));
    var renamed := Exec(cast, RenameColumn(t, from, newName), db);
    assert dropped.value.columns[(t, newName)] == data && renamed.value.columns[(t, newName)] == db.columns[(t, from)];
    if data == db.columns[(t, from)] {
      assert dropped.value.columns == renamed.value.columns;
    }
  }

  lemma TempIsAnotherColumn(c: string)
    ensures TempColumn(c) != c
  {
    assert |TempColumn(c)| == |c| + 3;
  }

  /** The EXPAND and DATA parts of a type change fill the free temporary column. */
  lemma FillTemp(cast: Cast, t: string, c: string, ty: string, db: Db)
    requires LawfulCast(cast) && t in db.rows && (t, c) in db.columns && (t, TempColumn(c)) !in db.columns
    ensures var data := ColumnData(ty, CastAll(cast, ty, db.columns[(t, c)].values));
            var added := Exec(cast, AddColumn(t, TempColumn(c), ty), db);
            && added.Some?
            && Exec(cast, CastColumn(t, TempColumn(c), c, ty), added.value)
               == Some(db.(columns := db.columns[(t, TempColumn(c)) := data]))
  {
    TempIsAnotherColumn(c);
    CastAllTwice(cast, ty, db.columns[(t, c)].values);
    var temp, data := TempColumn(c), ColumnData(ty, CastAll(cast, ty, db.columns[(t, c)].values));
    var added := Exec(cast, AddColumn(t, temp, ty), db).value;
    var filled := Exec(cast, CastColumn(t, temp, c, ty), added).value;
    assert filled.columns == db.columns[(t, temp) := data];
  }

  /** The CONTRACT part of a type change puts the temporary column in the place of the original. */
  lemma SwapTemp(cast: Cast, t: string, c: string, data: ColumnData, db: Db)
    requires (t, c) in db.columns && (t, TempColumn(c)) !in db.columns
    ensures Run(cast, [DropColumn(t, c), RenameColumn(t, TempColumn(c), c)],
                Some(db.(columns := db.columns[(t, TempColumn(c)) := data])))
            == Some(db.(columns := db.columns[(t, c) := data]))
  {
    TempIsAnotherColumn(c);
    var temp := TempColumn(c);
    var dropped := Exec(cast, DropColumn(t, c), db.(columns := db.columns[(t, temp) := data]));
    assert [DropColumn(t, c), RenameColumn(t, temp, c)][1..] == [RenameColumn(t, temp, c)];
    RunOne(cast, RenameColumn(t, temp, c), dropped);
    assert Exec(cast, RenameColumn(t, temp, c), dropped.value).value.columns == db.columns[(t, c) := data];
  }

  lemma ChangeTypeAlone(cast: Cast, typeMap: TypeMap, s: Stmt, db: Db)
    requires s.ChangeType? && LawfulCast(cast) && WellTyped(cast, db) && Exec(cast, s, db).Some?
    ensures Run(cast, Alone(typeMap, s), Some(db)) == Exec(cast, s, db) <==> Faithful(typeMap, db, s)
  {
    var ChangeType(t, c, full) := s;
    var temp, ty := TempColumn(c), LeadingWord(full);
    if ty == "" {
      RunOne(cast, s, Some(db));
      assert Alone(typeMap, s) == [s];
    } else if (t, temp) in db.columns {
      RunThree(cast, AddColumn(t, temp, ty), CastColumn(t, temp, c, ty), [DropColumn(t, c), RenameColumn(t, temp, c)], db);
    } else {
      RunThree(cast, AddColumn(t, temp, ty), CastColumn(t, temp, c, ty), [DropColumn(t, c), RenameColumn(t, temp, c)], db);
      FillTemp(cast, t, c, ty, db);
      var data := ColumnData(ty, CastAll(cast, ty, db.columns[(t, c)].values));
      SwapTemp(cast, t, c, data, db);
      assert db.columns[(t, c) := data][(t, c)].ty == ty;
      assert Exec(cast, s, db).value.columns[(t, c)].ty == full;
    }
  }

  /** For a single statement the three parts do what the statement does exactly when it is `Faithful`. */
  lemma AloneMeansStatement(cast: Cast, typeMap: TypeMap, s: Stmt, db: Db)
    requires LawfulCast(cast) && WellTyped(cast, db) && Exec(cast, s, db).Some?
    ensures Run(cast, Alone(typeMap, s), Some(db)) == Exec(cast, s, db) <==> Faithful(typeMap, db, s)
  {
    match s
    case RenameColumn(_, _, _) => RenameAlone(cast, typeMap, s, db);
    case ChangeType(_, _, _) => ChangeTypeAlone(cast, typeMap, s, db);
    case _ =>
      assert Alone(typeMap, s) == [s];
      RunOne(cast, s, Some(db));
  }

  // --- whole migrations ---

  lemma {:induction false} SplitNames(typeMap: TypeMap, ops: seq<Stmt>)
    ensures Footprints(Expand(typeMap, ops)) <= AllNames(ops)
    ensures Footprints(Migrate(typeMap, ops)) <= AllNames(ops)
    ensures Footprints(Contract(typeMap, ops)) <= AllNames(ops)
  {
    if ops != [] {
      SplitNames(typeMap, ops[1..]);
      RewriteNames(typeMap, ops[0]);
      var parts := Rewrite(typeMap, ops[0]);
      FootprintsAppend(parts.safe, Expand(typeMap, ops[1..]));
      FootprintsAppend(parts.data, Migrate(typeMap, ops[1..]));
      FootprintsAppend(parts.breaking, Contract(typeMap, ops[1..]));
    }
  }

  lemma RewriteNames(typeMap: TypeMap, s: Stmt)
    ensures Footprints(Rewrite(typeMap, s).safe) <= Names(s)
    ensures Footprints(Rewrite(typeMap, s).data) <= Names(s)
    ensures Footprints(Rewrite(typeMap, s).breaking) <= Names(s)
    ensures Footprints(Alone(typeMap, s)) <= Names(s)
  {
    var parts := Rewrite(typeMap, s);
    forall x: Stmt ensures Footprints([x]) == Footprint(x) {
      assert [x][1..] == [];
    }
    forall x: Stmt, y: Stmt ensures Footprints([x, y]) == Footprint(x) + Footprint(y) {
      assert [x, y][1..] == [y];
      assert Footprints([x, y]) == Footprint(x) + Footprints([y]);
    }
    FootprintsAppend(parts.safe, parts.data);
    FootprintsAppend(parts.safe + parts.data, parts.breaking);
  }

  /** The phases of a migration can be regrouped: all of the first statement, then the rest. */
  lemma Regroup(cast: Cast, typeMap: TypeMap, ops: seq<Stmt>, db: Db)
    requires ops != [] && PairwiseDisjoint(ops)
    ensures Run(cast, SplitScript(typeMap, ops), Some(db)) ==
            Run(cast, SplitScript(typeMap, ops[1..]), Run(cast, Alone(typeMap, ops[0]), Some(db)))
  {
    var parts := Rewrite(typeMap, ops[0]);
    var e, m, c := Expand(typeMap, ops[1..]), Migrate(typeMap, ops[1..]), Contract(typeMap, ops[1..]);
    SplitNames(typeMap, ops[1..]);
    RewriteNames(typeMap, ops[0]);
    FootprintsAppend(e, m);
    RegroupParts(cast, parts.safe, parts.data, parts.breaking, e, m, c, Some(db));
    RunAppend(cast, Alone(typeMap, ops[0]), SplitScript(typeMap, ops[1..]), Some(db));
  }

  lemma SplitScriptFrame(cast: Cast, typeMap: TypeMap, ops: seq<Stmt>, db: Db)
    ensures Run(cast, SplitScript(typeMap, ops), Some(db)).Some? ==>
              AgreeOff(db, Run(cast, SplitScript(typeMap, ops), Some(db)).value, AllNames(ops))
  {
    SplitNames(typeMap, ops);
    FootprintsAppend(Expand(typeMap, ops), Migrate(typeMap, ops));
    FootprintsAppend(Expand(typeMap, ops) + Migrate(typeMap, ops), Contract(typeMap, ops));
    RunFrame(cast, SplitScript(typeMap, ops), db, AllNames(ops));
  }

  lemma {:induction false} FootprintsAreNames(ops: seq<Stmt>)
    ensures Footprints(ops) <= AllNames(ops)
  {
    if ops != [] {
      FootprintsAreNames(ops[1..]);
    }
  }

  lemma {:induction false} FaithfulElsewhere(typeMap: TypeMap, a: Db, b: Db, ops: seq<Stmt>)
    requires AgreeOn(a, b, AllNames(ops))
    ensures AllFaithful(typeMap, a, ops) <==> AllFaithful(typeMap, b, ops)
  {
    if ops != [] {
      FaithfulElsewhere(typeMap, a, b, ops[1..]);
      match ops[0]
      case RenameColumn(t, from, _) => assert Look(a, (t, from)) == Look(b, (t, from));
      case ChangeType(t, c, _) => assert Look(a, (t, TempColumn(c))) == Look(b, (t, TempColumn(c)));
      case _ =>
    }
  }

  predicate AllFaithful(typeMap: TypeMap, db: Db, ops: seq<Stmt>) {
    ops == [] || (Faithful(typeMap, db, ops[0]) && AllFaithful(typeMap, db, ops[1..]))
  }

  /** Two runs that differ after the first statement still differ at the end. */
  lemma DifferenceRemains(cast: Cast, typeMap: TypeMap, ops: seq<Stmt>, db: Db, splitFirst: Db, final: Db)
    requires ops != [] && PairwiseDisjoint(ops) && Exec(cast, ops[0], db).Some?
    requires Run(cast, Alone(typeMap, ops[0]), Some(db)) == Some(splitFirst)
    requires splitFirst != Exec(cast, ops[0], db).value
    requires Run(cast, ops[1..], Exec(cast, ops[0], db)) == Some(final)
    ensures Run(cast, SplitScript(typeMap, ops[1..]), Some(splitFirst)) != Some(final)
  {
    var first := Exec(cast, ops[0], db).value;
    RewriteNames(typeMap, ops[0]);
    RunFrame(cast, Alone(typeMap, ops[0]), db, Names(ops[0]));
    ExecFrame(cast, ops[0], db);
    SplitScriptFrame(cast, typeMap, ops[1..], splitFirst);
    FootprintsAreNames(ops[1..]);
    RunFrame(cast, ops[1..], first, AllNames(ops[1..]));
    if Run(cast, SplitScript(typeMap, ops[1..]), Some(splitFirst)) == Some(final) {
      forall key ensures Look(splitFirst, key) == Look(first, key) {
        assert key in Names(ops[0]) ==> key !in AllNames(ops[1..]);
      }
      SameLooksSameDb(splitFirst, first);
      assert false;
    }
  }

  /** Running EXPAND, then DATA, then CONTRACT gives the database that the original statements give in
      their own order, types and values, exactly when every statement is `Faithful` at the start. */
  lemma {:induction false} SplitPreservesMeaning(cast: Cast, typeMap: TypeMap, ops: seq<Stmt>, db: Db)
    requires LawfulCast(cast) && WellTyped(cast, db) && PairwiseDisjoint(ops)
    requires Run(cast, ops, Some(db)).Some?
    ensures Run(cast, SplitScript(typeMap, ops), Some(db)) == Run(cast, ops, Some(db)) <==>
            AllFaithful(typeMap, db, ops)
  {
    if ops != [] {
      var first := Exec(cast, ops[0], db);
      Regroup(cast, typeMap, ops, db);
      AloneMeansStatement(cast, typeMap, ops[0], db);
      ExecFrame(cast, ops[0], db);
      ExecKeepsTypes(cast, ops[0], db);
      if Faithful(typeMap, db, ops[0]) {
        SplitPreservesMeaning(cast, typeMap, ops[1..], first.value);
        FaithfulElsewhere(typeMap, db, first.value, ops[1..]);
      } else {
        var alone := Run(cast, Alone(typeMap, ops[0]), Some(db));
        if alone.Some? {
          DifferenceRemains(cast, typeMap, ops, db, alone.value, Run(cast, ops, Some(db)).value);
        }
      }
    }
  }

  // --- migrations that fail ---

  predicate NoSelfRename(ops: seq<Stmt>) {
    forall i :: 0 <= i < |ops| && ops[i].RenameColumn? ==> ops[i].newName != ops[i].column
  }

  /** Where a statement fails, its three parts fail. */
  lemma AloneFails(cast: Cast, typeMap: TypeMap, s: Stmt, db: Db)
    requires WellTyped(cast, db) && Exec(cast, s, db).None?
    requires s.RenameColumn? ==> s.newName != s.column
    ensures Run(cast, Alone(typeMap, s), Some(db)).None?
  {
    hide Run;
    match s
    case RenameColumn(t, from, newName) =>
      var ty := DetectedType(typeMap, t, from);
      RunThree(cast, AddColumn(t, newName, ty), CopyColumn(t, newName, from), [DropColumn(t, from)], db);
      RunFails(cast, [DropColumn(t, from)]);
    case ChangeType(t, c, full) =>
      if LeadingWord(full) == "" {
        RunOne(cast, s, Some(db));
        assert Alone(typeMap, s) == [s];
      } else {
        var temp, ty := TempColumn(c), LeadingWord(full);
        TempIsAnotherColumn(c);
        var rest := [DropColumn(t, c), RenameColumn(t, temp, c)];
        RunThree(cast, AddColumn(t, temp, ty), CastColumn(t, temp, c, ty), rest, db);
        RunFails(cast, rest);
      }
    case _ =>
      assert Alone(typeMap, s) == [s];
      RunOne(cast, s, Some(db));
  }

  /** What one statement and its three parts leave agrees on all other columns, and so do runs from there. */
  lemma FailureRemains(cast: Cast, typeMap: TypeMap, ops: seq<Stmt>, db: Db, splitFirst: Db)
    requires ops != [] && PairwiseDisjoint(ops) && Exec(cast, ops[0], db).Some?
    requires Run(cast, Alone(typeMap, ops[0]), Some(db)) == Some(splitFirst)
    ensures Run(cast, SplitScript(typeMap, ops[1..]), Some(splitFirst)).None? <==>
            Run(cast, SplitScript(typeMap, ops[1..]), Exec(cast, ops[0], db)).None?
  {
    var first, script := Exec(cast, ops[0], db).value, SplitScript(typeMap, ops[1..]);
    RewriteNames(typeMap, ops[0]);
    RunFrame(cast, Alone(typeMap, ops[0]), db, Names(ops[0]));
    ExecFrame(cast, ops[0], db);
    SplitFootprints(typeMap, ops[1..]);
    hide Rewrite, Run, Exec, Alone, Expand, Migrate, Contract;
    forall key | key in AllNames(ops[1..]) ensures Look(splitFirst, key) == Look(first, key) {
      assert key !in Names(ops[0]);
    }
    RunLocal(cast, script, splitFirst, first, AllNames(ops[1..]));
  }

  lemma SplitFootprints(typeMap: TypeMap, ops: seq<Stmt>)
    ensures Footprints(SplitScript(typeMap, ops)) <= AllNames(ops)
  {
    SplitNames(typeMap, ops);
    FootprintsAppend(Expand(typeMap, ops), Migrate(typeMap, ops));
    FootprintsAppend(Expand(typeMap, ops) + Migrate(typeMap, ops), Contract(typeMap, ops));
  }

  /** A migration that fails as written fails when split. */
  lemma {:induction false} SplitFailsToo(cast: Cast, typeMap: TypeMap, ops: seq<Stmt>, db: Db)
    requires LawfulCast(cast) && WellTyped(cast, db) && PairwiseDisjoint(ops) && NoSelfRename(ops)
    requires Run(cast, ops, Some(db)).None?
    ensures Run(cast, SplitScript(typeMap, ops), Some(db)).None?
  {
    Regroup(cast, typeMap, ops, db);
    var first, alone := Exec(cast, ops[0], db), Run(cast, Alone(typeMap, ops[0]), Some(db));
    var script := SplitScript(typeMap, ops[1..]);
    if first.None? {
      AloneFails(cast, typeMap, ops[0], db);
      RunFails(cast, script);
    } else if alone.None? {
      RunFails(cast, script);
    } else {
      ExecKeepsTypes(cast, ops[0], db);
      SplitFailsToo(cast, typeMap, ops[1..], first.value);
      FailureRemains(cast, typeMap, ops, db, alone.value);
    }
  }

  /** A rename of a column to its own name never works as written. */
  lemma {:induction false} SelfRenamesFail(cast: Cast, ops: seq<Stmt>, db: Db)
    requires Run(cast, ops, Some(db)).Some?
    ensures NoSelfRename(ops)
  {
    if ops != [] {
      var first := Exec(cast, ops[0], db);
      if first.None? {
        RunFails(cast, ops[1..]);
      } else {
        SelfRenamesFail(cast, ops[1..], first.value);
      }
    }
  }

  /** For every migration on disjoint columns, those that fail included: splitting it makes no difference exactly when
      it fails as written or every statement is `Faithful` at the start. */
  lemma SplitIsExact(cast: Cast, typeMap: TypeMap, ops: seq<Stmt>, db: Db)
    requires LawfulCast(cast) && WellTyped(cast, db) && PairwiseDisjoint(ops) && NoSelfRename(ops)
    ensures Run(cast, SplitScript(typeMap, ops), Some(db)) == Run(cast, ops, Some(db)) <==>
            Run(cast, ops, Some(db)).None? || AllFaithful(typeMap, db, ops)
  {
    if Run(cast, ops, Some(db)).None? {
      SplitFailsToo(cast, typeMap, ops, db);
    } else {
      SplitPreservesMeaning(cast, typeMap, ops, db);
    }
  }

  /** The one thing left out does differ: a rename of a missing column to its own name fails, and its parts succeed. */
  lemma SelfRenameSucceedsWhenSplit(cast: Cast, typeMap: TypeMap)
    ensures var db := Db(map["t" := 0], map[]);
            var ops := [RenameColumn("t", "c", "c")];
            && Run(cast, ops, Some(db)).None?
            && Run(cast, SplitScript(typeMap, ops), Some(db)) == Some(db)
  {
    var db, s := Db(map["t" := 0], map[]), RenameColumn("t", "c", "c");
    var ty := DetectedType(typeMap, "t", "c");
    var add, copy, drop := AddColumn("t", "c", ty), CopyColumn("t", "c", "c"), DropColumn("t", "c");
    RunOne(cast, s, Some(db));
    assert [s][1..] == [];
    assert Expand(typeMap, [s]) == [add] + Expand(typeMap, []);
    assert Migrate(typeMap, [s]) == [copy] + Migrate(typeMap, []);
    assert Contract(typeMap, [s]) == [drop] + Contract(typeMap, []);
    assert SplitScript(typeMap, [s]) == [add] + [copy] + [drop];
    RunThree(cast, add, copy, [drop], db);
    var added := Exec(cast, add, db).value;
    var copied := Exec(cast, copy, added);
    RunOne(cast, drop, copied);
    assert Exec(cast, drop, copied.value).value.columns == map[];
  }

  // --- when EXPAND succeeds ---

  /** Each statement's EXPAND part succeeds on its own. */
  predicate SafePartsSucceed(cast: Cast, typeMap: TypeMap, ops: seq<Stmt>, db: Db) {
    forall i :: 0 <= i < |ops| ==> Run(cast, Rewrite(typeMap, ops[i]).safe, Some(db)).Some?
  }

  /** On disjoint columns the EXPAND phase succeeds exactly when each statement's part of it does. */
  lemma {:induction false} ExpandSucceedsExactlyIfEachDoes(cast: Cast, typeMap: TypeMap, ops: seq<Stmt>, db: Db)
    requires PairwiseDisjoint(ops)
    ensures Run(cast, Expand(typeMap, ops), Some(db)).Some? <==> SafePartsSucceed(cast, typeMap, ops, db)
  {
    if ops != [] {
      var safe := Rewrite(typeMap, ops[0]).safe;
      RunAppend(cast, safe, Expand(typeMap, ops[1..]), Some(db));
      var next := Run(cast, safe, Some(db));
      if next.None? {
        RunFails(cast, Expand(typeMap, ops[1..]));
      } else {
        SafePartsElsewhere(cast, typeMap, ops, db, next.value);
        ExpandSucceedsExactlyIfEachDoes(cast, typeMap, ops[1..], next.value);
        hide Rewrite, Run, Expand;
        assert forall i :: 0 < i < |ops| ==> ops[i] == ops[1..][i - 1];
      }
    }
  }

  lemma SafePartsElsewhere(cast: Cast, typeMap: TypeMap, ops: seq<Stmt>, db: Db, next: Db)
    requires ops != [] && PairwiseDisjoint(ops)
    requires Run(cast, Rewrite(typeMap, ops[0]).safe, Some(db)) == Some(next)
    ensures forall i :: 0 < i < |ops| ==>
              (Run(cast, Rewrite(typeMap, ops[i]).safe, Some(db)).Some? <==>
               Run(cast, Rewrite(typeMap, ops[i]).safe, Some(next)).Some?)
  {
    RewriteNames(typeMap, ops[0]);
    RunFrame(cast, Rewrite(typeMap, ops[0]).safe, db, Names(ops[0]));
    hide Rewrite, Run, Names;
    forall i | 0 < i < |ops|
      ensures Run(cast, Rewrite(typeMap, ops[i]).safe, Some(db)).Some? <==>
              Run(cast, Rewrite(typeMap, ops[i]).safe, Some(next)).Some?
    {
      NamesAmong(ops[1..], i - 1);
      RewriteNames(typeMap, ops[i]);
      RunLocal(cast, Rewrite(typeMap, ops[i]).safe, db, next, Names(ops[i]));
    }
  }

  lemma {:induction false} NamesAmong(ops: seq<Stmt>, i: nat)
    requires i < |ops|
    ensures Names(ops[i]) <= AllNames(ops)
  {
    if i > 0 {
      NamesAmong(ops[1..], i - 1);
    }
  }

  /** A NOT NULL addition succeeds in EXPAND exactly on an existing table without the column, if the table is empty or
      its default is a value of the type. */
  lemma NotNullInExpand(cast: Cast, typeMap: TypeMap, s: Stmt, db: Db)
    requires s.AddColumnNotNull?
    ensures Run(cast, Rewrite(typeMap, s).safe, Some(db)).Some? <==>
            && s.table in db.rows && (s.table, s.column) !in db.columns
            && (db.rows[s.table] == 0 || (s.fallback.Some? && cast(s.ty, Text(s.fallback.value)) != Null))
  {
    RunOne(cast, s, Some(db));
  }

  /** Dropping a column whose name reads like an update runs in DATA, before the rest of CONTRACT. */
  lemma DropsThatLookLikeData(typeMap: TypeMap, t: string, c: string, i: nat)
    requires DmlWordAt(c, i)
    ensures Migrate(typeMap, [DropColumn(t, c)]) == [DropColumn(t, c)] && Contract(typeMap, [DropColumn(t, c)]) == []
  {
    assert [DropColumn(t, c)][1..] == [];
    assert MentionsDml(c);
  }

  /** Disjointness is needed: replacing a column by dropping and adding it again works as written and
      fails when split, because the addition moves to the front. */
  lemma OverlapBreaksTheSplit(cast: Cast, typeMap: TypeMap)
    ensures var ops := [DropColumn("t", "c"), AddColumn("t", "c", "int")];
            var db := Db(map["t" := 0], map[("t", "c") := ColumnData("text", [])]);
            && !PairwiseDisjoint(ops)
            && Run(cast, ops, Some(db)).Some?
            && Run(cast, SplitScript(typeMap, ops), Some(db)).None?
  {
    var drop, add := DropColumn("t", "c"), AddColumn("t", "c", "int");
    var db := Db(map["t" := 0], map[("t", "c") := ColumnData("text", [])]);
    var ops := [drop, add];
    assert ops[1..] == [add] && [add][1..] == [];
    assert ("t", "c") in Names(drop) && ("t", "c") in Names(add) && AllNames([add]) == Names(add) + AllNames([]);
    assert Exec(cast, drop, db) == Some(Db(db.rows, map[]));
    RunOne(cast, add, Exec(cast, drop, db));
    assert Expand(typeMap, ops) == [] + Expand(typeMap, [add]);
    assert Expand(typeMap, [add]) == [add] + Expand(typeMap, []);
    assert SplitScript(typeMap, ops)[0] == add;
  }

  /** The promised three-step rewriting of NOT NULL additions never happens: with rows in the table and no
      default, such a migration already fails in its EXPAND phase. */
  lemma {:induction false} NotNullFailsInExpand(cast: Cast, typeMap: TypeMap, ops: seq<Stmt>, k: nat, db: Db)
    requires k < |ops| && ops[k].AddColumnNotNull? && ops[k].fallback.None?
    requires ops[k].table in db.rows ==> db.rows[ops[k].table] > 0
    ensures Run(cast, Expand(typeMap, ops), Some(db)).None?
  {
    var safe := Rewrite(typeMap, ops[0]).safe;
    RunAppend(cast, safe, Expand(typeMap, ops[1..]), Some(db));
    if k == 0 {
      RunOne(cast, ops[0], Some(db));
      RunFails(cast, Expand(typeMap, ops[1..]));
    } else {
      var next := Run(cast, safe, Some(db));
      RunFrame(cast, safe, db, Footprints(safe));
      if next.Some? {
        NotNullFailsInExpand(cast, typeMap, ops[1..], k - 1, next.value);
      } else {
        RunFails(cast, Expand(typeMap, ops[1..]));
      }
    }
  }

  lemma RunFails(cast: Cast, script: seq<Stmt>)
    ensures Run(cast, script, None).None?
  {
  }

  // --- the statements that come out ---

  /** A rename is split with the type that the type map holds for the old column, and with VARCHAR when it holds none. */
  lemma RenameIsSplit(typeMap: TypeMap, t: string, from: string, newName: string)
    ensures var op, ty := [RenameColumn(t, from, newName)],
              if t in typeMap && from in typeMap[t] && typeMap[t][from] != "" then typeMap[t][from] else "VARCHAR";
            && Expand(typeMap, op) == [AddColumn(t, newName, ty)]
            && Migrate(typeMap, op) == [CopyColumn(t, newName, from)]
            && Contract(typeMap, op) == [DropColumn(t, from)]
  {
    assert [RenameColumn(t, from, newName)][1..] == [];
  }

  /** A type change to one word is split over a column with the suffix `_v2`. */
  lemma TypeChangeIsSplit(typeMap: TypeMap, t: string, c: string, ty: string)
    requires ty != ""
    requires forall i :: 0 <= i < |ty| ==>
               'a' <= ty[i] <= 'z' || 'A' <= ty[i] <= 'Z' || '0' <= ty[i] <= '9' || ty[i] == '_'
    ensures var op := [ChangeType(t, c, ty)];
            && Expand(typeMap, op) == [AddColumn(t, c + "_v2", ty)]
            && Migrate(typeMap, op) == [CastColumn(t, c + "_v2", c, ty)]
            && Contract(typeMap, op) == [DropColumn(t, c), RenameColumn(t, c + "_v2", c)]
  {
    LeadingWordIsLongest(ty, ty, "");
    assert [ChangeType(t, c, ty)][1..] == [];
  }

  /** What is kept of a type is its longest prefix of letters, digits and underscores. */
  lemma {:induction false} LeadingWordIsLongest(ty: string, word: string, rest: string)
    requires ty == word + rest
    requires forall i :: 0 <= i < |word| ==>
               'a' <= word[i] <= 'z' || 'A' <= word[i] <= 'Z' || '0' <= word[i] <= '9' || word[i] == '_'
    requires rest != "" ==>
               !('a' <= rest[0] <= 'z' || 'A' <= rest[0] <= 'Z' || '0' <= rest[0] <= '9' || rest[0] == '_')
    ensures LeadingWord(ty) == word
  {
    if word == "" {
      assert ty == rest;
    } else {
      assert ty[1..] == word[1..] + rest;
      LeadingWordIsLongest(ty[1..], word[1..], rest);
    }
  }

  /** A type that starts with no such character leaves its change in EXPAND as it is. */
  lemma OddTypeIsNotSplit(typeMap: TypeMap, t: string, c: string, ty: string)
    requires ty != "" ==> !('a' <= ty[0] <= 'z' || 'A' <= ty[0] <= 'Z' || '0' <= ty[0] <= '9' || ty[0] == '_')
    ensures var op := [ChangeType(t, c, ty)];
            Expand(typeMap, op) == op && Migrate(typeMap, op) == [] && Contract(typeMap, op) == []
  {
    assert [ChangeType(t, c, ty)][1..] == [];
  }

  /** The other statements go whole into one phase: additions into EXPAND, updates into DATA. */
  lemma OthersAreKept(typeMap: TypeMap, s: Stmt)
    requires !s.RenameColumn? && !s.ChangeType? && !s.DropColumn?
    ensures Expand(typeMap, [s]) == if s.AddColumn? || s.AddColumnNotNull? then [s] else []
    ensures Migrate(typeMap, [s]) == if s.CopyColumn? || s.CastColumn? then [s] else []
    ensures Contract(typeMap, [s]) == []
  {
    assert [s][1..] == [];
  }

  /** Drops go into CONTRACT, except those whose names contain one of three words in any case. */
  lemma DropsAreKept(typeMap: TypeMap, t: string, c: string)
    ensures Expand(typeMap, [DropColumn(t, c)]) == []
    ensures Contract(typeMap, [DropColumn(t, c)]) == [] <==> ReadsLikeData(t) || ReadsLikeData(c)
    ensures Migrate(typeMap, [DropColumn(t, c)]) + Contract(typeMap, [DropColumn(t, c)]) == [DropColumn(t, c)]
  {
    assert [DropColumn(t, c)][1..] == [];
    SameWords(t);
    SameWords(c);
  }

  ghost predicate SameLetter(c: char, lower: char) {
    c == lower || c as int + 32 == lower as int
  }

  ghost predicate WordIn(name: string, i: nat, word: string) {
    i + |word| <= |name| && forall j :: 0 <= j < |word| ==> SameLetter(name[i + j], word[j])
  }

  ghost predicate ReadsLikeData(name: string) {
    exists i: nat :: WordIn(name, i, "update") || WordIn(name, i, "insert") || WordIn(name, i, "delete")
  }

  lemma {:induction false} LowerAt(s: string)
    ensures |Lower(s)| == |s|
    ensures forall i :: 0 <= i < |s| ==>
              Lower(s)[i] == if 'A' <= s[i] <= 'Z' then ((s[i] as int) + 32) as char else s[i]
  {
    if s != "" {
      LowerAt(s[1..]);
    }
  }

  lemma SameWord(name: string, i: nat, word: string)
    requires i + |word| <= |name| && forall j :: 0 <= j < |word| ==> 'a' <= word[j] <= 'z'
    ensures Lower(name[i..i + |word|]) == word <==> WordIn(name, i, word)
  {
    var part := name[i..i + |word|];
    LowerAt(part);
    hide Lower;
    forall j | 0 <= j < |word| ensures Lower(part)[j] == word[j] <==> SameLetter(name[i + j], word[j]) {
      assert part[j] == name[i + j];
    }
  }

  lemma SameWords(name: string)
    ensures MentionsDml(name) <==> ReadsLikeData(name)
  {
    hide Lower, WordIn;
    forall i: nat | i + 6 <= |name|
      ensures DmlWordAt(name, i) <==> WordIn(name, i, "update") || WordIn(name, i, "insert") || WordIn(name, i, "delete")
    {
      SameWord(name, i, "update");
      SameWord(name, i, "insert");
      SameWord(name, i, "delete");
    }
    forall i: nat | WordIn(name, i, "update") || WordIn(name, i, "insert") || WordIn(name, i, "delete")
      ensures i + 6 <= |name|
    {
      WordsFit(name, i);
    }
  }

  lemma WordsFit(name: string, i: nat)
    requires WordIn(name, i, "update") || WordIn(name, i, "insert") || WordIn(name, i, "delete")
    ensures i + 6 <= |name|
  {
  }

  /** The phases of a longer migration are those of its statements, one after another. */
  lemma PhasesAppend(typeMap: TypeMap, a: seq<Stmt>, b: seq<Stmt>)
    ensures Expand(typeMap, a + b) == Expand(typeMap, a) + Expand(typeMap, b)
    ensures Migrate(typeMap, a + b) == Migrate(typeMap, a) + Migrate(typeMap, b)
    ensures Contract(typeMap, a + b) == Contract(typeMap, a) + Contract(typeMap, b)
  {
    ExpandBoth(typeMap, a, b);
    MigrateBoth(typeMap, a, b);
    ContractBoth(typeMap, a, b);
    hide Expand, Migrate, Contract;
  }

  lemma {:induction false} ExpandBoth(typeMap: TypeMap, a: seq<Stmt>, b: seq<Stmt>)
    ensures Expand(typeMap, a + b) == Expand(typeMap, a) + Expand(typeMap, b)
  {
    hide Rewrite;
    if a == [] {
      assert a + b == b;
    } else {
      assert (a + b)[0] == a[0] && (a + b)[1..] == a[1..] + b;
      ExpandBoth(typeMap, a[1..], b);
      assert Expand(typeMap, a + b) == Rewrite(typeMap, a[0]).safe + Expand(typeMap, a[1..] + b);
      assert Expand(typeMap, a) == Rewrite(typeMap, a[0]).safe + Expand(typeMap, a[1..]);
      hide Expand;
    }
  }

  lemma {:induction false} MigrateBoth(typeMap: TypeMap, a: seq<Stmt>, b: seq<Stmt>)
    ensures Migrate(typeMap, a + b) == Migrate(typeMap, a) + Migrate(typeMap, b)
  {
    hide Rewrite;
    if a == [] {
      assert a + b == b;
    } else {
      assert (a + b)[0] == a[0] && (a + b)[1..] == a[1..] + b;
      MigrateBoth(typeMap, a[1..], b);
      assert Migrate(typeMap, a + b) == Rewrite(typeMap, a[0]).data + Migrate(typeMap, a[1..] + b);
      assert Migrate(typeMap, a) == Rewrite(typeMap, a[0]).data + Migrate(typeMap, a[1..]);
      hide Migrate;
    }
  }

  lemma {:induction false} ContractBoth(typeMap: TypeMap, a: seq<Stmt>, b: seq<Stmt>)
    ensures Contract(typeMap, a + b) == Contract(typeMap, a) + Contract(typeMap, b)
  {
    hide Rewrite;
    if a == [] {
      assert a + b == b;
    } else {
      assert (a + b)[0] == a[0] && (a + b)[1..] == a[1..] + b;
      ContractBoth(typeMap, a[1..], b);
      assert Contract(typeMap, a + b) == Rewrite(typeMap, a[0]).breaking + Contract(typeMap, a[1..] + b);
      assert Contract(typeMap, a) == Rewrite(typeMap, a[0]).breaking + Contract(typeMap, a[1..]);
      hide Contract;
    }
  }

  // --- with a type map that fits ---

  /** The type map holds the type of every column of the database. */
  ghost predicate MapFits(typeMap: TypeMap, db: Db) {
    forall t, c :: (t, c) in db.columns ==>
      t in typeMap && c in typeMap[t] && typeMap[t][c] == db.columns[(t, c)].ty != ""
  }

  predicate IsRenameAddOrDrop(s: Stmt) {
    s.RenameColumn? || s.AddColumn? || s.AddColumnNotNull? || s.DropColumn?
  }

  lemma {:induction false} FittingMapIsFaithful(typeMap: TypeMap, db: Db, ops: seq<Stmt>)
    requires MapFits(typeMap, db) && forall i :: 0 <= i < |ops| ==> IsRenameAddOrDrop(ops[i])
    ensures AllFaithful(typeMap, db, ops)
  {
    if ops != [] {
      FittingMapIsFaithful(typeMap, db, ops[1..]);
    }
  }

  /** With a type map taken from the database, every migration of renames, additions and drops on disjoint columns that
      works as written gives the same database when it is split. */
  lemma FittingMapPreservesMeaning(cast: Cast, typeMap: TypeMap, ops: seq<Stmt>, db: Db)
    requires LawfulCast(cast) && WellTyped(cast, db) && PairwiseDisjoint(ops)
    requires MapFits(typeMap, db) && forall i :: 0 <= i < |ops| ==> IsRenameAddOrDrop(ops[i])
    requires Run(cast, ops, Some(db)).Some?
    ensures Run(cast, SplitScript(typeMap, ops), Some(db)) == Run(cast, ops, Some(db))
  {
    FittingMapIsFaithful(typeMap, db, ops);
    SplitPreservesMeaning(cast, typeMap, ops, db);
  }

  // --- the splitter object ---

  /** The operations a rewritten statement becomes; only the original keeps its dependencies. */
  function Wrap(op: Op, stmts: seq<Stmt>): seq<Op> {
    if stmts == [] then []
    else [Operation(stmts[0], if stmts[0] == op.sql then op.dependencies else [])] + Wrap(op, stmts[1..])
  }

  datatype PhaseOps = PhaseOps(expand: seq<Op>, data: seq<Op>, contract: seq<Op>)

  function Distribute(typeMap: TypeMap, ops: seq<Op>): PhaseOps {
    if ops == [] then PhaseOps([], [], [])
    else
      var op := ops[|ops| - 1];
      var before, parts := Distribute(typeMap, ops[..|ops| - 1]), Rewrite(typeMap, op.sql);
      PhaseOps(before.expand + Wrap(op, parts.safe), before.data + Wrap(op, parts.data),
               before.contract + Wrap(op, parts.breaking))
  }

  function MakePhase(name: PhaseName, ops: seq<Op>): seq<Phase<Stmt>> {
    if ops == [] then [] else [Phase(name, ops, Sqls(ops))]
  }

  /** The phases that have operations; nothing ever goes into FIX. */
  function SplitPhases(typeMap: TypeMap, ops: seq<Op>): seq<Phase<Stmt>> {
    var all := Distribute(typeMap, ops);
    MakePhase(EXPAND, all.expand) + MakePhase(DATA, all.data) + MakePhase(CONTRACT, all.contract)
  }

  class LifecycleSplitter {
    var typeMap: TypeMap

    constructor ()
      ensures typeMap == map[]
    {
      typeMap := map[];
    }

    /** A type map once given stays in use for later calls without one. */
    method Split(operations: seq<Op>, types: Option<TypeMap>) returns (phases: seq<Phase<Stmt>>)
      modifies this
      ensures typeMap == if types.Some? then types.value else old(typeMap)
      ensures phases == SplitPhases(typeMap, operations)
    {
      if types.Some? {
        typeMap := types.value;
      }
      var expand, data, contract: seq<Op> := [], [], [];
      for i := 0 to |operations|
        invariant PhaseOps(expand, data, contract) == Distribute(typeMap, operations[..i])
      {
        assert operations[..i + 1][..i] == operations[..i];
        var parts := Rewrite(typeMap, operations[i].sql);
        expand := expand + Wrap(operations[i], parts.safe);
        data := data + Wrap(operations[i], parts.data);
        contract := contract + Wrap(operations[i], parts.breaking);
      }
      assert operations[..|operations|] == operations;
      phases := MakePhase(EXPAND, expand) + MakePhase(DATA, data) + MakePhase(CONTRACT, contract);
    }
  }
}
