/** Whole runs over a database of tables: statements, invalidations and registry resets in any order. */
module Runs {
  import opened Ast
  import opened TableFile
  import opened IndexSpec
  import opened ExecSpec
  import opened ExecFacts
  import InsertRows

  /** Tables by storage name. */
  type Db = map<string, Table>

  datatype Op =
    | Run(s: Statement, schema: Schema, x: Faults)
    | Invalidate(table: string)
    | Reset

  ghost function DbStep(db: Db, op: Op): (seq<Outcome>, Db) {
    match op
    case Run(s, schema, x) =>
      if schema.storage !in db then ([Failed], db)
      else
        var r := Execute(s, schema, x, db[schema.storage]);
        ([r.0], db[schema.storage := r.1])
    case Invalidate(name) => ([], if name in db then db[name := db[name].(entry := NEW_ENTRY)] else db)
    case Reset => ([], map name | name in db :: db[name].(entry := NEW_ENTRY))
  }

  ghost function RunAll(db: Db, ops: seq<Op>): (seq<Outcome>, Db) {
    if ops == [] then ([], db)
    else
      var first := DbStep(db, ops[0]);
      var rest := RunAll(first.1, ops[1..]);
      (first.0 + rest.0, rest.1)
  }

  /** The reference database holds files only. */
  ghost function RefStep(files: map<string, File>, op: Op): (seq<Outcome>, map<string, File>) {
    match op
    case Run(s, schema, _) =>
      if schema.storage !in files then ([Failed], files)
      else
        var r := Reference(s, schema, files[schema.storage]);
        ([r.0], files[schema.storage := r.1])
    case _ => ([], files)
  }

  ghost function RefAll(files: map<string, File>, ops: seq<Op>): (seq<Outcome>, map<string, File>) {
    if ops == [] then ([], files)
    else
      var first := RefStep(files, ops[0]);
      var rest := RefAll(first.1, ops[1..]);
      (first.0 + rest.0, rest.1)
  }

  ghost function Files(db: Db): map<string, File> {
    map name | name in db :: db[name].file
  }

  ghost predicate AllReady(db: Db) {
    forall name | name in db :: Ready(db[name])
  }

  /** Schemas come from the loader and values are C strings. */
  ghost predicate OpOk(op: Op) {
    op.Run? ==> SchemaOk(op.schema) && CStrings(op.s)
  }

  /** If the operation registers a row, the row fits the line buffer. */
  ghost predicate OpFits(db: Db, op: Op) {
    op.Run? && op.schema.storage in db && Execute(op.s, op.schema, op.x, db[op.schema.storage]).0.Inserted? ==>
      Fits(op.s, op.schema)
  }

  /** All rows registered in the course of the run fit the line buffer. */
  ghost predicate AllFit(db: Db, ops: seq<Op>)
    decreases |ops|
  {
    ops != [] ==> OpFits(db, ops[0]) && AllFit(DbStep(db, ops[0]).1, ops[1..])
  }

  /** Every table is ready at the start and after each operation. */
  ghost predicate ReadyThroughout(db: Db, ops: seq<Op>)
    decreases |ops|
  {
    AllReady(db) && (ops != [] ==> ReadyThroughout(DbStep(db, ops[0]).1, ops[1..]))
  }

  lemma NewEntriesReady(db: Db)
    requires AllReady(db)
    ensures forall name | name in db :: Ready(db[name].(entry := NEW_ENTRY))
  {
  }

  lemma StepReady(db: Db, op: Op)
    requires AllReady(db) && OpOk(op)
    ensures AllReady(DbStep(db, op).1) <==> OpFits(db, op)
  {
    hide Execute, Ready, Fits, CStrings, SchemaOk;
    if op.Run? && op.schema.storage in db {
      ExecuteKeepsReady(op.s, op.schema, op.x, db[op.schema.storage]);
      var name, db' := op.schema.storage, DbStep(db, op).1;
      assert db'[name] == Execute(op.s, op.schema, op.x, db[name]).1;
      assert forall n | n in db' && n != name :: db'[n] == db[n];
    } else {
      NewEntriesReady(db);
    }
  }

  /**
   * Coherence over whole runs: whatever operations and faults occur, every index is at all times either unloaded or
   * what a fresh scan would build, if and only if all registered rows fit the line buffer.
   */
  lemma {:induction false} RunsStayCoherent(db: Db, ops: seq<Op>)
    requires AllReady(db) && forall i | 0 <= i < |ops| :: OpOk(ops[i])
    ensures ReadyThroughout(db, ops) <==> AllFit(db, ops)
    ensures AllFit(db, ops) ==> AllReady(RunAll(db, ops).1)
    decreases |ops|
  {
    hide DbStep, AllReady, OpFits, OpOk;
    if ops != [] {
      StepReady(db, ops[0]);
      if OpFits(db, ops[0]) {
        RunsStayCoherent(DbStep(db, ops[0]).1, ops[1..]);
      } else {
        assert !ReadyThroughout(DbStep(db, ops[0]).1, ops[1..]);
      }
    }
  }

  // ---- agreement with the reference ----

  /** The operation is a statement on this table. */
  predicate On(op: Op, name: string) {
    op.Run? && op.schema.storage == name
  }

  predicate Mentions(ops: seq<Op>, name: string) {
    exists i :: 0 <= i < |ops| && On(ops[i], name)
  }

  /** A registered row that does not fit the line buffer is its table's last statement. */
  ghost predicate LongRowsLast(db: Db, ops: seq<Op>)
    decreases |ops|
  {
    ops != [] ==>
      && (OpFits(db, ops[0]) || !Mentions(ops[1..], ops[0].schema.storage))
      && LongRowsLast(DbStep(db, ops[0]).1, ops[1..])
  }

  /**
   * No operation meets a fault, each table has one schema, and the tables still in use are ready and have rows of that
   * width.
   */
  ghost predicate Undisturbed(db: Db, schemas: map<string, Schema>, ops: seq<Op>) {
    && (forall i | 0 <= i < |ops| :: OpOk(ops[i]))
    && (forall i | 0 <= i < |ops| && ops[i].Run? ::
          ops[i].x == NO_FAULTS && ops[i].schema.storage in schemas && ops[i].schema == schemas[ops[i].schema.storage])
    && (forall name | name in db && name in schemas && Mentions(ops, name) :: InUse(db[name], schemas[name]))
  }

  ghost predicate InUse(t: Table, schema: Schema) {
    Ready(t) && WidthsMatch(RowsOf(t.file), |schema.columns|)
  }

  /** One statement without faults does what the reference does, and leaves the table in use if its row fits. */
  lemma StatementMatches(s: Statement, schema: Schema, t: Table)
    requires InUse(t, schema) && SchemaOk(schema) && CStrings(s)
    ensures var r := Execute(s, schema, NO_FAULTS, t); (r.0, r.1.file) == Reference(s, schema, t.file)
    ensures var r := Execute(s, schema, NO_FAULTS, t);
            (r.0.Inserted? ==> Fits(s, schema)) ==> InUse(r.1, schema)
  {
    hide Execute, Reference, WidthsMatch, Coherent, Fits, CStrings, SchemaOk, RowsOf;
    ExecuteIsReference(s, schema, t);
    ExecuteKeepsReady(s, schema, NO_FAULTS, t);
    if Execute(s, schema, NO_FAULTS, t).0.Inserted? ==> Fits(s, schema) {
      ReferenceWidths(s, schema, t.file);
    }
  }

  lemma StepMatchesReference(db: Db, op: Op)
    requires OpOk(op) && (op.Run? && op.schema.storage in db ==>
                            op.x == NO_FAULTS && InUse(db[op.schema.storage], op.schema))
    ensures DbStep(db, op).0 == RefStep(Files(db), op).0
    ensures Files(DbStep(db, op).1) == RefStep(Files(db), op).1
  {
    hide Execute, Reference, InUse, CStrings, SchemaOk;
    if op.Run? && op.schema.storage in db {
      StatementMatches(op.s, op.schema, db[op.schema.storage]);
    } else {
      assert forall name | name in db :: name in DbStep(db, op).1;
    }
  }

  /** Tables that are used again stay usable. */
  lemma StepInUse(db: Db, op: Op, name: string, schema: Schema)
    requires name in db && InUse(db[name], schema) && OpOk(op) && OpFits(db, op)
    requires On(op, name) ==> op.x == NO_FAULTS && op.schema == schema
    ensures name in DbStep(db, op).1 && InUse(DbStep(db, op).1[name], schema)
  {
    hide Execute, WidthsMatch, Fits, CStrings, SchemaOk, RowsOf;
    if On(op, name) {
      StatementMatches(op.s, schema, db[name]);
    }
  }

  lemma OtherTable(db: Db, op: Op, name: string, schema: Schema)
    requires name in db && InUse(db[name], schema) && !On(op, name)
    ensures name in DbStep(db, op).1 && InUse(DbStep(db, op).1[name], schema)
  {
    hide Execute, WidthsMatch, RowsOf;
  }

  lemma UndisturbedStep(db: Db, ops: seq<Op>, schemas: map<string, Schema>)
    requires ops != [] && Undisturbed(db, schemas, ops)
    requires OpFits(db, ops[0]) || !Mentions(ops[1..], ops[0].schema.storage)
    ensures Undisturbed(DbStep(db, ops[0]).1, schemas, ops[1..])
    ensures ops[0].Run? && ops[0].schema.storage in db ==>
              ops[0].x == NO_FAULTS && InUse(db[ops[0].schema.storage], ops[0].schema)
    ensures DbStep(db, ops[0]).1.Keys == db.Keys
  {
    hide InUse, OpFits, OpOk, Execute;
    var db' := DbStep(db, ops[0]).1;
    assert forall i | 0 <= i < |ops| - 1 :: ops[1..][i] == ops[i + 1];
    forall name | name in db' && name in schemas && Mentions(ops[1..], name) ensures InUse(db'[name], schemas[name]) {
      MentionedLater(ops, name);
      if On(ops[0], name) {
        StepInUse(db, ops[0], name, schemas[name]);
      } else {
        OtherTable(db, ops[0], name, schemas[name]);
      }
    }
    if ops[0].Run? {
      assert On(ops[0], ops[0].schema.storage);
    }
  }

  lemma MentionedLater(ops: seq<Op>, name: string)
    requires ops != [] && Mentions(ops[1..], name)
    ensures Mentions(ops, name)
  {
    var i :| 0 <= i < |ops[1..]| && On(ops[1..][i], name);
    assert On(ops[i + 1], name);
  }

  /**
   * The index is never observable: results and files of a whole run are those of the index-free reference, as long as
   * no statement follows a row that does not fit the line buffer on its table.
   */
  lemma {:induction false} RunsMatchReference(db: Db, ops: seq<Op>, schemas: map<string, Schema>)
    requires Undisturbed(db, schemas, ops) && LongRowsLast(db, ops)
    ensures RunAll(db, ops).0 == RefAll(Files(db), ops).0
    ensures Files(RunAll(db, ops).1) == RefAll(Files(db), ops).1
    decreases |ops|
  {
    if ops != [] {
      hide DbStep, RefStep, InUse, OpOk, OpFits, Files, Mentions;
      UndisturbedStep(db, ops, schemas);
      assert OpOk(ops[0]);
      StepMatchesReference(db, ops[0]);
      RunsMatchReference(DbStep(db, ops[0]).1, ops[1..], schemas);
    }
  }

  // ---- and only then ----

  /** Every operation is an acceptable INSERT into a table that can be read. */
  ghost predicate Inserts(db: Db, ops: seq<Op>) {
    forall i | 0 <= i < |ops| ::
      && ops[i].Run? && ops[i].s.Insert? && ops[i].schema.storage in db
      && InsertRows.Insertable(ops[i].s.columns, ops[i].s.values, ops[i].schema)
      && Scan(db[ops[i].schema.storage].file).Ok?
  }

  ghost function FirstOn(ops: seq<Op>, name: string): (n: nat)
    requires Mentions(ops, name)
    ensures n < |ops| && On(ops[n], name) && forall i | 0 <= i < n :: !On(ops[i], name)
  {
    if On(ops[0], name) then 0
    else
      assert Mentions(ops[1..], name) by {
        var i :| 0 <= i < |ops| && On(ops[i], name);
        assert ops[1..][i - 1] == ops[i];
      }
      1 + FirstOn(ops[1..], name)
  }

  /** The first statement on a table meets the table as it was at the start. */
  lemma {:induction false} FirstAnswer(db: Db, files: map<string, File>, ops: seq<Op>, name: string, n: nat)
    requires (forall i | 0 <= i < |ops| :: ops[i].Run?) && n < |ops| && On(ops[n], name)
    requires name in db && name in files && forall i | 0 <= i < n :: !On(ops[i], name)
    ensures n < |RunAll(db, ops).0|
    ensures RunAll(db, ops).0[n] == Execute(ops[n].s, ops[n].schema, ops[n].x, db[name]).0
    ensures n < |RefAll(files, ops).0|
    ensures RefAll(files, ops).0[n] == Reference(ops[n].s, ops[n].schema, files[name]).0
    decreases n
  {
    hide Execute, Reference;
    if n > 0 {
      FirstAnswer(DbStep(db, ops[0]).1, RefStep(files, ops[0]).1, ops[1..], name, n - 1);
    }
  }

  /** An INSERT that follows a row too long for the line buffer is not answered as the reference answers it. */
  lemma LongRowShows(db: Db, ops: seq<Op>, schemas: map<string, Schema>)
    requires ops != [] && Undisturbed(db, schemas, ops) && Inserts(db, ops)
    requires !OpFits(db, ops[0]) && Mentions(ops[1..], ops[0].schema.storage)
    ensures RunAll(db, ops).0 != RefAll(Files(db), ops).0
  {
    hide Execute, Reference, Scan, InsertRows.Insertable, Fits, WidthsMatch, Coherent, CStrings;
    var op, name, rest := ops[0], ops[0].schema.storage, ops[1..];
    assert On(op, name) && Mentions(ops, name) && OpOk(op) && InUse(db[name], op.schema);
    var n := FirstOn(rest, name);
    assert rest[n] == ops[n + 1];
    StepMatchesReference(db, op);
    FirstAnswer(DbStep(db, op).1, RefStep(Files(db), op).1, rest, name, n);
    SecondInsertAgrees(op.s, rest[n].s, op.schema, db[name]);
    assert RunAll(db, ops).0[n + 1] != RefAll(Files(db), ops).0[n + 1];
  }

  lemma InsertsStep(db: Db, ops: seq<Op>, schemas: map<string, Schema>)
    requires ops != [] && Undisturbed(db, schemas, ops) && Inserts(db, ops)
    requires OpFits(db, ops[0]) || !Mentions(ops[1..], ops[0].schema.storage)
    ensures Inserts(DbStep(db, ops[0]).1, ops[1..])
  {
    hide Execute, Scan, InsertRows.Insertable, Fits, WidthsMatch, CStrings;
    var op, name, db' := ops[0], ops[0].schema.storage, DbStep(db, ops[0]).1;
    assert On(op, name) && Mentions(ops, name) && OpOk(op);
    if OpFits(db, op) {
      InsertReadable(op.s, op.schema, db[name]);
    }
    var rest := ops[1..];
    forall i | 0 <= i < |rest| ensures Scan(db'[rest[i].schema.storage].file).Ok? {
      assert rest[i] == ops[i + 1];
      if rest[i].schema.storage == name {
        assert On(rest[i], name);
      }
    }
  }

  /** A row that fits leaves the file readable. */
  lemma InsertReadable(s: Statement, schema: Schema, t: Table)
    requires s.Insert? && SchemaOk(schema) && CStrings(s) && Ready(t) && Scan(t.file).Ok?
    requires InsertRows.Insertable(s.columns, s.values, schema)
    requires Execute(s, schema, NO_FAULTS, t).0.Inserted? ==> Fits(s, schema)
    ensures Scan(Execute(s, schema, NO_FAULTS, t).1.file).Ok?
  {
    hide Execute, Scan, Appended, InsertRows.RowFor, InsertRows.DistinctNames;
    InsertSucceeds(s, schema, NO_FAULTS, t);
    ExecuteAppends(s, schema, NO_FAULTS, t);
    RowWritable(s.columns, s.values, schema);
    AppendScan(t.file, InsertRows.RowFor(s.columns, s.values, schema));
  }

  lemma SameHead<T>(a: seq<T>, x: seq<T>, y: seq<T>)
    ensures a + x == a + y <==> x == y
  {
    assert x == (a + x)[|a|..] && y == (a + y)[|a|..];
  }

  /** For INSERTs the condition is exact: some answer is not the reference's as soon as it is violated. */
  lemma {:induction false} InsertsMatchExactly(db: Db, ops: seq<Op>, schemas: map<string, Schema>)
    requires Undisturbed(db, schemas, ops) && Inserts(db, ops)
    ensures RunAll(db, ops).0 == RefAll(Files(db), ops).0 <==> LongRowsLast(db, ops)
    decreases |ops|
  {
    if ops != [] {
      if OpFits(db, ops[0]) || !Mentions(ops[1..], ops[0].schema.storage) {
        hide DbStep, RefStep, InUse, OpOk, OpFits, Files, Mentions, Inserts;
        UndisturbedStep(db, ops, schemas);
        InsertsStep(db, ops, schemas);
        assert OpOk(ops[0]);
        StepMatchesReference(db, ops[0]);
        var db' := DbStep(db, ops[0]).1;
        InsertsMatchExactly(db', ops[1..], schemas);
        SameHead(DbStep(db, ops[0]).0, RunAll(db', ops[1..]).0, RefAll(Files(db'), ops[1..]).0);
      } else {
        LongRowShows(db, ops, schemas);
      }
    }
  }
}
