/** The effect of the column statements that the migration engine reads and writes, on an abstract
    database: every column has a type and one value for each row of its table. */
module Database {
  import opened Options

  datatype Value = Null | Text(text: string)

  datatype ColumnData = ColumnData(ty: string, values: seq<Value>)

  type Name = (string, string)  // table, column

  datatype Db = Db(rows: map<string, nat>, columns: map<Name, ColumnData>)

  datatype Stmt =
    | AddColumn(table: string, column: string, ty: string)
    | AddColumnNotNull(table: string, column: string, ty: string, fallback: Option<string>)  // NOT NULL [DEFAULT f]
    | DropColumn(table: string, column: string)
    | RenameColumn(table: string, column: string, newName: string)
    | ChangeType(table: string, column: string, ty: string)
    | CopyColumn(table: string, column: string, source: string)              // UPDATE t SET c = s
    | CastColumn(table: string, column: string, source: string, ty: string)  // UPDATE t SET c = CAST(s AS ty)

  /** `cast(ty, v)` is the value of `v` converted to type `ty`. */
  type Cast = (string, Value) -> Value

  ghost predicate LawfulCast(cast: Cast) {
    && (forall ty :: cast(ty, Null) == Null)
    && (forall ty, v :: cast(ty, cast(ty, v)) == cast(ty, v))
  }

  function CastAll(cast: Cast, ty: string, values: seq<Value>): (r: seq<Value>)
    ensures |r| == |values|
  {
    if values == [] then [] else [cast(ty, values[0])] + CastAll(cast, ty, values[1..])
  }

  function Repeat(value: Value, n: nat): (r: seq<Value>)
    ensures |r| == n
  {
    if n == 0 then [] else [value] + Repeat(value, n - 1)
  }

  /** Executes one statement; `None` is a database error. */
  function Exec(cast: Cast, s: Stmt, db: Db): Option<Db> {
    var key := (s.table, s.column);
    match s
    case AddColumn(t, c, ty) =>
      if t in db.rows && key !in db.columns
      then Some(db.(columns := db.columns[key := ColumnData(ty, Repeat(Null, db.rows[t]))])) else None
    case AddColumnNotNull(t, c, ty, fallback) =>
      var value := if fallback.Some? then cast(ty, Text(fallback.value)) else Null;
      if t in db.rows && (db.rows[t] == 0 || value != Null) && key !in db.columns
      then Some(db.(columns := db.columns[key := ColumnData(ty, Repeat(value, db.rows[t]))])) else None
    case DropColumn(_, _) =>
      if key in db.columns then Some(db.(columns := db.columns - {key})) else None
    case RenameColumn(t, _, newName) =>
      if key in db.columns && (t, newName) !in db.columns
      then Some(db.(columns := (db.columns - {key})[(t, newName) := db.columns[key]])) else None
    case ChangeType(_, _, ty) =>
      if key in db.columns
      then Some(db.(columns := db.columns[key := ColumnData(ty, CastAll(cast, ty, db.columns[key].values))])) else None
    case CopyColumn(t, _, source) =>
      if key in db.columns && (t, source) in db.columns
      then Some(Store(cast, db, key, db.columns[(t, source)].values)) else None
    case CastColumn(t, _, source, ty) =>
      if key in db.columns && (t, source) in db.columns
      then Some(Store(cast, db, key, CastAll(cast, ty, db.columns[(t, source)].values))) else None
  }

  /** Storing values in a column converts them to the column's type. */
  function Store(cast: Cast, db: Db, key: Name, values: seq<Value>): Db
    requires key in db.columns
  {
    var ty := db.columns[key].ty;
    db.(columns := db.columns[key := ColumnData(ty, CastAll(cast, ty, values))])
  }

  function Run(cast: Cast, script: seq<Stmt>, db: Option<Db>): Option<Db> {
    if script == [] || db.None? then db
    else Run(cast, script[1..], Exec(cast, script[0], db.value))
  }

  /** The columns a statement names. */
  function Footprint(s: Stmt): set<Name> {
    {(s.table, s.column)} +
    match s
    case RenameColumn(t, _, newName) => {(t, newName)}
    case CopyColumn(t, _, source) => {(t, source)}
    case CastColumn(t, _, source, _) => {(t, source)}
    case _ => {}
  }

  function Footprints(script: seq<Stmt>): set<Name> {
    if script == [] then {} else Footprint(script[0]) + Footprints(script[1..])
  }

  function Look(db: Db, key: Name): Option<ColumnData> {
    if key in db.columns then Some(db.columns[key]) else None
  }

  /** Each column belongs to a table, has one value per row and holds values of its own type only. */
  ghost predicate WellTyped(cast: Cast, db: Db) {
    forall key :: key in db.columns ==>
                    && key.0 in db.rows
                    && |db.columns[key].values| == db.rows[key.0]
                    && CastAll(cast, db.columns[key].ty, db.columns[key].values) == db.columns[key].values
  }

  ghost predicate AgreeOn(a: Db, b: Db, keys: set<Name>) {
    a.rows == b.rows && forall key :: key in keys ==> Look(a, key) == Look(b, key)
  }

  ghost predicate AgreeOff(a: Db, b: Db, keys: set<Name>) {
    a.rows == b.rows && forall key :: key !in keys ==> Look(a, key) == Look(b, key)
  }

  // --- a script touches and depends on nothing but the columns it names ---

  lemma ExecFrame(cast: Cast, s: Stmt, db: Db)
    ensures Exec(cast, s, db).Some? ==> AgreeOff(db, Exec(cast, s, db).value, Footprint(s))
  {
  }

  lemma ExecLocal(cast: Cast, s: Stmt, a: Db, b: Db)
    requires AgreeOn(a, b, Footprint(s))
    ensures Exec(cast, s, a).Some? <==> Exec(cast, s, b).Some?
    ensures Exec(cast, s, a).Some? ==> AgreeOn(Exec(cast, s, a).value, Exec(cast, s, b).value, Footprint(s))
  {
    var key := (s.table, s.column);
    assert Look(a, key) == Look(b, key);
    match s
    case RenameColumn(t, _, newName) => assert Look(a, (t, newName)) == Look(b, (t, newName));
    case CopyColumn(t, _, source) => assert Look(a, (t, source)) == Look(b, (t, source));
    case CastColumn(t, _, source, _) => assert Look(a, (t, source)) == Look(b, (t, source));
    case _ =>
  }

  lemma {:induction false} RunFrame(cast: Cast, script: seq<Stmt>, db: Db, keys: set<Name>)
    requires Footprints(script) <= keys
    ensures Run(cast, script, Some(db)).Some? ==> AgreeOff(db, Run(cast, script, Some(db)).value, keys)
  {
    if script != [] {
      ExecFrame(cast, script[0], db);
      var next := Exec(cast, script[0], db);
      if next.Some? {
        RunFrame(cast, script[1..], next.value, keys);
      }
    }
  }

  lemma {:induction false} RunLocal(cast: Cast, script: seq<Stmt>, a: Db, b: Db, keys: set<Name>)
    requires Footprints(script) <= keys && AgreeOn(a, b, keys)
    ensures Run(cast, script, Some(a)).Some? <==> Run(cast, script, Some(b)).Some?
    ensures Run(cast, script, Some(a)).Some? ==>
              AgreeOn(Run(cast, script, Some(a)).value, Run(cast, script, Some(b)).value, keys)
  {
    if script != [] {
      ExecLocal(cast, script[0], a, b);
      ExecFrame(cast, script[0], a);
      ExecFrame(cast, script[0], b);
      var nextA, nextB := Exec(cast, script[0], a), Exec(cast, script[0], b);
      if nextA.Some? {
        forall key | key in keys ensures Look(nextA.value, key) == Look(nextB.value, key) {
          if key !in Footprint(script[0]) {
            assert Look(a, key) == Look(b, key);
          }
        }
        RunLocal(cast, script[1..], nextA.value, nextB.value, keys);
      }
    }
  }

  lemma {:induction false} RunAppend(cast: Cast, first: seq<Stmt>, second: seq<Stmt>, db: Option<Db>)
    ensures Run(cast, first + second, db) == Run(cast, second, Run(cast, first, db))
  {
    if first == [] {
      assert first + second == second;
    } else if db.Some? {
      assert (first + second)[1..] == first[1..] + second;
      RunAppend(cast, first[1..], second, Exec(cast, first[0], db.value));
    }
  }

  lemma SameLooksSameDb(a: Db, b: Db)
    requires a.rows == b.rows && forall key :: Look(a, key) == Look(b, key)
    ensures a == b
  {
    forall key ensures key in a.columns <==> key in b.columns {
      assert Look(a, key) == Look(b, key);
    }
    forall key | key in a.columns ensures a.columns[key] == b.columns[key] {
      assert Look(a, key) == Look(b, key);
    }
    assert a.columns == b.columns;
  }

  /** Scripts that name no common column can be exchanged, errors included. */
  lemma ScriptsCommute(cast: Cast, p: seq<Stmt>, q: seq<Stmt>, db: Db)
    requires Footprints(p) !! Footprints(q)
    ensures Run(cast, p + q, Some(db)) == Run(cast, q + p, Some(db))
  {
    RunAppend(cast, p, q, Some(db));
    RunAppend(cast, q, p, Some(db));
    var afterP, afterQ := Run(cast, p, Some(db)), Run(cast, q, Some(db));
    RunFrame(cast, p, db, Footprints(p));
    RunFrame(cast, q, db, Footprints(q));
    if afterP.Some? {
      RunLocal(cast, q, db, afterP.value, Footprints(q));
    }
    if afterQ.Some? {
      RunLocal(cast, p, db, afterQ.value, Footprints(p));
    }
    if afterP.Some? && afterQ.Some? {
      var pq, qp := Run(cast, q, afterP).value, Run(cast, p, afterQ).value;
      RunFrame(cast, q, afterP.value, Footprints(q));
      RunFrame(cast, p, afterQ.value, Footprints(p));
      forall key ensures Look(pq, key) == Look(qp, key) {
      }
      SameLooksSameDb(pq, qp);
    }
  }

  /** Exchanging two neighbouring parts of a longer script that name no common column. */
  lemma ExchangeInside(cast: Cast, before: seq<Stmt>, p: seq<Stmt>, q: seq<Stmt>, after: seq<Stmt>, db: Option<Db>)
    requires Footprints(p) !! Footprints(q)
    ensures Run(cast, before + p + q + after, db) == Run(cast, before + q + p + after, db)
  {
    var middle := Run(cast, before, db);
    assert before + p + q + after == before + ((p + q) + after);
    assert before + q + p + after == before + ((q + p) + after);
    RunAppend(cast, before, (p + q) + after, db);
    RunAppend(cast, before, (q + p) + after, db);
    RunAppend(cast, p + q, after, middle);
    RunAppend(cast, q + p, after, middle);
    if middle.Some? {
      ScriptsCommute(cast, p, q, middle.value);
    }
  }

  /** The same six parts, taken by phase or by origin. */
  lemma RegroupParts(
    cast: Cast, s: seq<Stmt>, d: seq<Stmt>, b: seq<Stmt>, e: seq<Stmt>, m: seq<Stmt>, c: seq<Stmt>, db: Option<Db>)
    requires Footprints(e) !! Footprints(d) && Footprints(e + m) !! Footprints(b)
    ensures Run(cast, (s + e) + (d + m) + (b + c), db) == Run(cast, (s + d + b) + (e + m + c), db)
  {
    SameParts(s, d, b, e, m, c);
    ExchangeInside(cast, s, e, d, m + b + c, db);
    ExchangeInside(cast, s + d, e + m, b, c, db);
  }

  lemma SameParts(s: seq<Stmt>, d: seq<Stmt>, b: seq<Stmt>, e: seq<Stmt>, m: seq<Stmt>, c: seq<Stmt>)
    ensures (s + e) + (d + m) + (b + c) == s + e + d + (m + b + c)
    ensures s + d + e + (m + b + c) == (s + d) + (e + m) + b + c
    ensures (s + d) + b + (e + m) + c == (s + d + b) + (e + m + c)
  {
  }

  lemma {:induction false} FootprintsAppend(p: seq<Stmt>, q: seq<Stmt>)
    ensures Footprints(p + q) == Footprints(p) + Footprints(q)
  {
    if p == [] {
      assert p + q == q;
    } else {
      assert (p + q)[1..] == p[1..] + q;
      FootprintsAppend(p[1..], q);
    }
  }

  // --- typing ---

  lemma {:induction false} CastAllTwice(cast: Cast, ty: string, values: seq<Value>)
    requires LawfulCast(cast)
    ensures CastAll(cast, ty, CastAll(cast, ty, values)) == CastAll(cast, ty, values)
  {
    if values != [] {
      CastAllTwice(cast, ty, values[1..]);
      assert CastAll(cast, ty, values)[1..] == CastAll(cast, ty, values[1..]);
    }
  }

  lemma {:induction false} CastRepeat(cast: Cast, ty: string, value: Value, n: nat)
    requires cast(ty, value) == value
    ensures CastAll(cast, ty, Repeat(value, n)) == Repeat(value, n)
  {
    if n > 0 {
      CastRepeat(cast, ty, value, n - 1);
      assert Repeat(value, n)[1..] == Repeat(value, n - 1);
    }
  }

  lemma ExecKeepsTypes(cast: Cast, s: Stmt, db: Db)
    requires LawfulCast(cast) && WellTyped(cast, db)
    ensures Exec(cast, s, db).Some? ==> WellTyped(cast, Exec(cast, s, db).value)
  {
    var key := (s.table, s.column);
    match s
    case AddColumn(t, _, ty) => if t in db.rows { CastRepeat(cast, ty, Null, db.rows[t]); }
    case AddColumnNotNull(t, _, ty, fallback) =>
      if t in db.rows { CastRepeat(cast, ty, if fallback.Some? then cast(ty, Text(fallback.value)) else Null, db.rows[t]); }
    case ChangeType(_, _, ty) => if key in db.columns { CastAllTwice(cast, ty, db.columns[key].values); }
    case CopyColumn(t, _, source) =>
      if key in db.columns && (t, source) in db.columns {
        CastAllTwice(cast, db.columns[key].ty, db.columns[(t, source)].values);
      }
    case CastColumn(t, _, source, ty) =>
      if key in db.columns && (t, source) in db.columns {
        CastAllTwice(cast, db.columns[key].ty, CastAll(cast, ty, db.columns[(t, source)].values));
      }
    case _ =>
  }
}
