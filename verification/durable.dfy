/** A registered row is found under its id from then on, whatever happens in between. */
module Durable {
  import opened Wrappers
  import opened Ast
  import opened Pairs
  import opened TableFile
  import opened IndexSpec
  import opened ExecSpec
  import opened ExecFacts
  import opened Runs
  import InsertRows
  import Numbers
  import Csv

  /**
   * A later version of a file: every offset reads as before, and if the file can still be scanned its first rows are
   * the earlier ones.
   */
  ghost predicate Extends(f: File, f': File) {
    && |f| <= |f'|
    && (forall p | 0 <= p < |f| :: ReadAt(f', p) == ReadAt(f, p))
    && (Scan(f').Ok? ==> Scan(f).Ok? && RowsOf(f) <= RowsOf(f'))
  }

  lemma AppendExtends(f: File, row: seq<string>)
    requires f != ""
    ensures Extends(f, Appended(f, row)) && Appended(f, row) != ""
  {
    forall p | 0 <= p < |f| ensures ReadAt(Appended(f, row), p) == ReadAt(f, p) {
      OffsetsStable(f, row, p);
    }
    hide Scan, ReadAt, Csv.Encode;
    if Scan(Appended(f, row)).Ok? {
      AppendKeepsRows(f, row);
    }
  }

  lemma ExtendsTransitive(f: File, f': File, f'': File)
    requires Extends(f, f') && Extends(f', f'')
    ensures Extends(f, f'')
  {
    hide ReadAt, Scan;
  }

  /** No statement changes or removes anything in a file, whatever state the index is in. */
  lemma StepExtends(db: Db, op: Op, name: string)
    requires name in db && db[name].file != ""
    ensures name in DbStep(db, op).1 && DbStep(db, op).1[name].file != ""
    ensures Extends(db[name].file, DbStep(db, op).1[name].file)
  {
    hide Execute, Scan, ReadAt, Appended, InsertRows.RowFor;
    if op.Run? && op.schema.storage == name {
      ExecuteAppends(op.s, op.schema, op.x, db[name]);
      if Appends(op.s, op.schema, db[name].file, Execute(op.s, op.schema, op.x, db[name]).1.file) {
        AppendExtends(db[name].file, InsertRows.RowFor(op.s.columns, op.s.values, op.schema));
      }
    }
  }

  /** After any operations, with any faults and rows of any length, all that was in a file is still read as before. */
  lemma {:induction false} RunsKeepRows(db: Db, ops: seq<Op>, name: string)
    requires name in db && db[name].file != ""
    ensures name in RunAll(db, ops).1 && Extends(db[name].file, RunAll(db, ops).1[name].file)
    decreases |ops|
  {
    hide DbStep, Extends;
    if ops == [] {
      ExtendsItself(db[name].file);
    } else {
      var db' := DbStep(db, ops[0]).1;
      StepExtends(db, ops[0], name);
      RunsKeepRows(db', ops[1..], name);
      ExtendsTransitive(db[name].file, db'[name].file, RunAll(db', ops[1..]).1[name].file);
    }
  }

  lemma ExtendsItself(f: File)
    ensures Extends(f, f)
  {
  }

  /** `SELECT * ... WHERE id = n`, with the number spelled as the server prints it. */
  function SelectById(table: string, id: int): Statement {
    Select(table, true, [], Some(Condition("id", Numbers.IntText(id))))
  }

  lemma {:induction false} ProjectFrom(fields: seq<string>, indexes: seq<int>, id: int, n: nat)
    requires n + |indexes| == |fields| && forall i | 0 <= i < |indexes| :: indexes[i] == n + i
    ensures IndexesOk(indexes, |fields|) && Project(fields, indexes, id) == fields[n..]
  {
    if indexes != [] {
      ProjectFrom(fields, indexes[1..], id, n + 1);
      assert fields[n..] == [fields[n]] + fields[n + 1..];
    }
  }

  // ---- one row ----

  /** Row `row` is number `id` of its table: by its offset, by the index if loaded, and by a scan if one is possible. */
  ghost predicate Anchored(t: Table, id: int, row: Row) {
    && t.file != "" && row.offset < |t.file| && ReadAt(t.file, row.offset) == Ok(row.fields)
    && Indexes(t.entry, id, row.offset)
    && (Scan(t.file).Ok? ==> 1 <= id <= |RowsOf(t.file)| && RowsOf(t.file)[id - 1] == row)
  }

  /** If the entry is loaded it maps `id` to `offset`, and will not hand `id` out again. */
  ghost predicate Indexes(e: Entry, id: int, offset: int) {
    && Tidy(e)
    && (e.loaded ==> id < e.nextId && id in MapOf(e.tree.pairs) && MapOf(e.tree.pairs)[id] == offset)
  }

  /** Every row of a ready, readable table is anchored under its number. */
  lemma ReadyAnchored(t: Table, id: int)
    requires Ready(t) && Scan(t.file).Ok? && 1 <= id <= |RowsOf(t.file)|
    ensures Anchored(t, id, RowsOf(t.file)[id - 1])
  {
    hide Scan, ReadAt, MapOf;
    RowsInFile(t.file, id - 1);
    CoherentIsTidy(t.entry, t.file);
    IndexLookup(RowsOf(t.file), id);
  }

  lemma RowsInFile(f: File, i: nat)
    requires Scan(f).Ok? && i < |RowsOf(f)|
    ensures RowsOf(f)[i].offset < |f| && ReadAt(f, RowsOf(f)[i].offset) == Ok(RowsOf(f)[i].fields)
  {
    hide ScanFrom;
    RowsReadable(f, LineEnd(f, 0, 0), i);
  }

  lemma LoadedIndexes(rows: seq<Row>, id: int)
    requires 1 <= id <= |rows|
    ensures Indexes(LoadedEntry(rows), id, rows[id - 1].offset)
  {
    hide MapOf;
    LoadedIsTidy(rows);
    IndexLookup(rows, id);
  }

  /** Registering a further row leaves the ids before it alone. */
  lemma ExtendedIndexes(e: Entry, id: int, offset: int, at: int)
    requires e.loaded && Indexes(e, id, offset)
    ensures Indexes(Extended(e, at), id, offset)
  {
    RegisterTidy(e, "", at, false, true, true);
    var pairs := e.tree.pairs;
    InsAt(pairs, e.nextId, at, |pairs|);
    assert pairs + [(e.nextId, at)] == Ins(pairs, e.nextId, at);
    MapOfConcat(pairs, [(e.nextId, at)]);
  }

  lemma LoadedAnchored(t: Table, id: int, row: Row)
    requires Anchored(t, id, row) && (t.entry.loaded || Scan(t.file).Ok?)
    ensures Anchored(t.(entry := Loaded(t)), id, row) && Loaded(t).loaded
  {
    hide Scan, ReadAt, Indexes;
    if !t.entry.loaded {
      LoadedIndexes(RowsOf(t.file), id);
    }
  }

  /** The same row in a later version of the file. */
  lemma LaterAnchored(t: Table, t': Table, id: int, row: Row)
    requires Anchored(t, id, row) && Extends(t.file, t'.file) && Indexes(t'.entry, id, row.offset)
    ensures Anchored(t', id, row)
  {
    hide Scan, ReadAt, Indexes;
  }

  lemma EmptyIndexes(id: int, offset: int)
    ensures Indexes(NEW_ENTRY, id, offset)
  {
  }

  lemma SelectAnchored(s: Statement, schema: Schema, x: Faults, t: Table, id: int, row: Row)
    requires s.Select? && Anchored(t, id, row)
    ensures Anchored(Execute(s, schema, x, t).1, id, row)
  {
    hide Execute, Scan, Anchored, LoadedEntry, ReadAt, Project, SelectPlan;
    RunSelect(s, schema, x, t);
    EmptyAnchored(t, id, row);
    if t.entry.loaded || Scan(t.file).Ok? {
      LoadedAnchored(t, id, row);
    }
  }

  lemma EmptyAnchored(t: Table, id: int, row: Row)
    requires Anchored(t, id, row)
    ensures Anchored(t.(entry := NEW_ENTRY), id, row) && t.file != "" && Tidy(t.entry)
  {
    EmptyIndexes(id, row.offset);
  }

  lemma AppendAnchored(t: Table, written: seq<string>, id: int, row: Row)
    requires Anchored(t, id, row) && t.entry.loaded
    ensures Anchored(Table(Appended(t.file, written), NEW_ENTRY), id, row)
    ensures Anchored(Table(Appended(t.file, written), Extended(t.entry, |Terminated(t.file)|)), id, row)
  {
    hide Scan, ReadAt, Appended, Extends, Extended;
    AppendExtends(t.file, written);
    EmptyIndexes(id, row.offset);
    ExtendedIndexes(t.entry, id, row.offset, |Terminated(t.file)|);
    hide Indexes;
    LaterAnchored(t, Table(Appended(t.file, written), NEW_ENTRY), id, row);
    LaterAnchored(t, Table(Appended(t.file, written), Extended(t.entry, |Terminated(t.file)|)), id, row);
  }

  lemma InsertAnchored(s: Statement, schema: Schema, x: Faults, t: Table, id: int, row: Row)
    requires s.Insert? && Anchored(t, id, row)
    ensures Anchored(Execute(s, schema, x, t).1, id, row)
  {
    hide Execute, Scan, Anchored, Appended, Terminated, Extended, Tidy, LoadedEntry, InsertRows.RowFor,
         InsertRows.DistinctNames;
    EmptyAnchored(t, id, row);
    InsertComposes(s, schema, x, t);
    if t.entry.loaded || Scan(t.file).Ok? {
      LoadedAnchored(t, id, row);
      if InsertRows.Insertable(s.columns, s.values, schema) {
        AppendAnchored(t.(entry := Loaded(t)), InsertRows.RowFor(s.columns, s.values, schema), id, row);
      }
    }
  }

  /** No statement, with any faults and rows of any length, takes a row from its number. */
  lemma ExecuteAnchored(s: Statement, schema: Schema, x: Faults, t: Table, id: int, row: Row)
    requires Anchored(t, id, row)
    ensures Anchored(Execute(s, schema, x, t).1, id, row)
  {
    hide Execute, Anchored;
    if s.Insert? {
      InsertAnchored(s, schema, x, t, id, row);
    } else {
      SelectAnchored(s, schema, x, t, id, row);
    }
  }

  // ---- looking it up ----

  /** The index of a table is loaded or can be built. */
  ghost predicate Usable(t: Table, x: Faults) {
    t.entry.loaded || (Scan(t.file).Ok? && x.memory)
  }

  lemma FindAnchored(t: Table, id: int, row: Row, x: Faults)
    requires Anchored(t, id, row)
    ensures FindRow(t.entry, t.file, id, x.memory).1 == if Usable(t, x) then Some(Some(row.offset)) else None
  {
    hide Scan, ReadAt, MapOf;
    if !t.entry.loaded && Scan(t.file).Ok? {
      LoadedIndexes(RowsOf(t.file), id);
    }
  }

  /** Selecting all columns by an anchored row's number gives that row, exactly if the index can be used. */
  lemma AnchoredRowIsFound(table: string, schema: Schema, x: Faults, t: Table, id: int, row: Row)
    requires Anchored(t, id, row) && id <= Numbers.INT_MAX && 1 <= id && |row.fields| == |schema.columns|
    ensures Execute(SelectById(table, id), schema, x, t).0 == Rows(schema.columns, [row.fields]) <==> Usable(t, x)
  {
    hide Execute, Project, Scan, ReadAt, FindRow, Numbers.IntText, Numbers.ParseInt, Indexes;
    Numbers.IntRoundTrip(id);
    RunSelect(SelectById(table, id), schema, x, t);
    FindAnchored(t, id, row, x);
    ProjectFrom(row.fields, seq(|schema.columns|, i => i), id, 0);
  }

  /** The row an INSERT stands for, as it is read back. */
  ghost function StoredRow(s: Statement, schema: Schema): (row: seq<string>)
    requires s.Insert? && |s.columns| == |s.values|
    ensures |row| == |schema.columns|
  {
    RowLength(s.columns, s.values, schema);
    Csv.NormalRow(InsertRows.RowFor(s.columns, s.values, schema))
  }

  /** An INSERT on a ready table anchors its row under the registered id, if the row fits the line buffer. */
  lemma InsertAnchors(s: Statement, schema: Schema, x: Faults, t: Table)
    requires s.Insert? && SchemaOk(schema) && CStrings(s) && Fits(s, schema) && Ready(t)
    requires Execute(s, schema, x, t).0.Inserted?
    ensures |s.columns| == |s.values|
    ensures var (answer, t') := Execute(s, schema, x, t);
            answer.id >= 1 && Anchored(t', answer.id, Row(answer.offset, StoredRow(s, schema)))
  {
    hide Execute, ScanFrom, Anchored, Coherent, Appended, InsertRows.RowFor, InsertRows.DistinctNames, Csv.Encode,
         Csv.NormalRow;
    var (answer, t') := Execute(s, schema, x, t);
    InsertedRow(s, schema, x, t);
    InsertAnswer(s, schema, x, t);
    ExecuteKeepsReady(s, schema, x, t);
    ExecuteAppends(s, schema, x, t);
    RowWritable(s.columns, s.values, schema);
    AppendScan(t.file, InsertRows.RowFor(s.columns, s.values, schema));
    ReadyAnchored(t', answer.id);
  }

  lemma {:induction false} RunsAnchored(db: Db, ops: seq<Op>, name: string, id: int, row: Row)
    requires name in db && Anchored(db[name], id, row)
    ensures name in RunAll(db, ops).1 && Anchored(RunAll(db, ops).1[name], id, row)
    decreases |ops|
  {
    hide Execute, Anchored;
    if ops != [] {
      var op, db' := ops[0], DbStep(db, ops[0]).1;
      EmptyAnchored(db[name], id, row);
      if op.Run? && op.schema.storage == name {
        ExecuteAnchored(op.s, op.schema, op.x, db[name], id, row);
      }
      RunsAnchored(db', ops[1..], name, id, row);
    }
  }

  /**
   * The row registered under id `n` is what `SELECT * WHERE id = n` returns at any later time, after any further
   * statements on any tables, with rows of any length, and after any faults, invalidations and resets: exactly if the
   * index is loaded then or can be built. Its table was ready when it was inserted, and it fits the line buffer.
   */
  lemma InsertedRowIsFound(db: Db, s: Statement, schema: Schema, x: Faults, ops: seq<Op>, y: Faults)
    requires s.Insert? && SchemaOk(schema) && CStrings(s) && Fits(s, schema)
    requires schema.storage in db && Ready(db[schema.storage])
    requires Execute(s, schema, x, db[schema.storage]).0.Inserted?
    requires Execute(s, schema, x, db[schema.storage]).0.id <= Numbers.INT_MAX
    ensures var answer := Execute(s, schema, x, db[schema.storage]).0;
            var later := RunAll(db, [Run(s, schema, x)] + ops).1;
            && schema.storage in later && |s.columns| == |s.values|
            && (Execute(SelectById(s.table, answer.id), schema, y, later[schema.storage]).0
                  == Rows(schema.columns, [StoredRow(s, schema)])
                <==> Usable(later[schema.storage], y))
  {
    hide Execute, Usable, Ready, Fits, CStrings, SelectById, StoredRow, Anchored;
    var op, name := Run(s, schema, x), schema.storage;
    assert ([op] + ops)[1..] == ops;
    var answer, db' := Execute(s, schema, x, db[name]).0, DbStep(db, op).1;
    assert db'[name] == Execute(s, schema, x, db[name]).1;
    InsertAnchors(s, schema, x, db[name]);
    var row := Row(answer.offset, StoredRow(s, schema));
    RunsAnchored(db', ops, name, answer.id, row);
    AnchoredRowIsFound(s.table, schema, y, RunAll(db', ops).1[name], answer.id, row);
  }
}
