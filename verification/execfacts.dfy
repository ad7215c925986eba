/** What execution guarantees: coherence of the index after every statement, and agreement with the reference. */
module ExecFacts {
  import opened Wrappers
  import opened Text
  import opened Ast
  import opened Pairs
  import opened TableFile
  import opened IndexSpec
  import opened ExecSpec
  import InsertRows
  import Numbers
  import Csv

  /** A table whose file has a header and whose index entry is coherent with the file. */
  ghost predicate Ready(t: Table) {
    t.file != "" && Coherent(t.entry, t.file)
  }

  /** The values of an INSERT are C strings: they hold no NUL. */
  ghost predicate CStrings(s: Statement) {
    s.Insert? ==> forall i | 0 <= i < |s.values| :: NulFree(s.values[i])
  }

  /** The row an INSERT writes fits one line buffer. */
  ghost predicate Fits(s: Statement, schema: Schema) {
    s.Insert? && InsertRows.Insertable(s.columns, s.values, schema) ==>
      |Csv.Encode(InsertRows.RowFor(s.columns, s.values, schema))| <= LINE_MAX
  }

  lemma RowWritable(columns: seq<string>, values: seq<string>, schema: Schema)
    requires SchemaOk(schema) && InsertRows.Insertable(columns, values, schema)
    requires forall i | 0 <= i < |values| :: NulFree(values[i])
    ensures Writable(InsertRows.RowFor(columns, values, schema))
  {
  }

  /** The entry an INSERT works on after loading. */
  ghost function Loaded(t: Table): Entry {
    if t.entry.loaded then t.entry else LoadedEntry(RowsOf(t.file))
  }

  /** A whole INSERT in one piece: every way it can end, and the table it leaves. */
  ghost function InsertResult(columns: seq<string>, values: seq<string>, schema: Schema, x: Faults, t: Table)
    : (Outcome, Table)
    requires Tidy(t.entry)
  {
    if !InsertRows.Valid(columns, values, schema) then (Failed, t)
    else if !t.entry.loaded && (Scan(t.file).Err? || !x.memory) then (Failed, t.(entry := NEW_ENTRY))
    else if !InsertRows.DistinctNames(columns) then (Failed, t.(entry := Loaded(t)))
    else
      var file', offset := Appended(t.file, InsertRows.RowFor(columns, values, schema)), |Terminated(t.file)|;
      if x.forced || !x.room then (Failed, Table(file', NEW_ENTRY))
      else (Inserted(Loaded(t).nextId, offset), Table(file', Extended(Loaded(t), offset)))
  }

  lemma LoadFirst(t: Table, memory: bool)
    requires t.entry.loaded || (Scan(t.file).Ok? && memory)
    ensures NextId(t.entry, t.file, memory) == (Loaded(t), Some(Loaded(t).nextId))
  {
  }

  /** The five steps of an INSERT compose to its result, for every file and every row. */
  lemma InsertComposes(s: Statement, schema: Schema, x: Faults, t: Table)
    requires s.Insert? && Tidy(t.entry)
    ensures Execute(s, schema, x, t) == InsertResult(s.columns, s.values, schema, x, t)
  {
    hide Execute, RunToEnd, Extended, Register, Appended, InsertRows.RowFor, InsertRows.DistinctNames;
    RunHead(s, schema, x, t);
    if InsertRows.Insertable(s.columns, s.values, schema) && (t.entry.loaded || (Scan(t.file).Ok? && x.memory)) {
      var row, e := InsertRows.RowFor(s.columns, s.values, schema), Loaded(t);
      LoadFirst(t, x.memory);
      LoadedIsTidy(RowsOf(t.file));
      RegisterTidy(e, Appended(t.file, row), |Terminated(t.file)|, x.forced, x.memory, x.room);
      RunTail(s, schema, x, t.(entry := e), e.nextId, row);
    }
  }

  // ---- SELECT by id: fast path against scan ----

  lemma {:induction false} ProjectWidth(fields: seq<string>, indexes: seq<int>, id: int)
    requires IndexesOk(indexes, |fields|)
    ensures |Project(fields, indexes, id)| == |indexes|
  {
    if indexes != [] {
      ProjectWidth(fields, indexes[1..], id);
    }
  }

  /** Filtering by row number picks at most that row. */
  lemma {:induction false} FilterById(rows: seq<Row>, first: int, c: Condition, schema: Schema, indexes: seq<int>,
                                      k: int)
    requires c.column == "id" && Numbers.ParseInt(c.value) == Some(k) && WidthsMatch(rows, |schema.columns|)
    requires IndexesOk(indexes, |schema.columns|)
    ensures Filter(rows, first, Some(c), schema, indexes)
         == if first <= k < first + |rows| then [Project(rows[k - first].fields, indexes, k)] else []
    decreases |rows|
  {
    hide Project, Numbers.ParseInt;
    if rows != [] {
      FilterById(rows[1..], first + 1, c, schema, indexes, k);
    }
  }

  /** What the index path answers for `id = k`. */
  ghost function FastSelect(f: File, plan: Plan, k: int, width: nat): Outcome
    requires IndexesOk(plan.indexes, width)
  {
    if Scan(f).Err? then Failed
    else if !(1 <= k <= |RowsOf(f)|) then Rows(plan.headers, [])
    else if |RowsOf(f)[k - 1].fields| != width then Failed
    else Rows(plan.headers, [Project(RowsOf(f)[k - 1].fields, plan.indexes, k)])
  }

  /** The first step of an id lookup: load the index if needed, then search it. */
  lemma LocateStep(s: Statement, schema: Schema, x: Faults, t: Table)
    requires s.Select? && ById(s.where) && Ready(t) && (t.entry.loaded || x.memory)
    ensures var plan, k := SelectPlan(s.all, s.columns, schema), Numbers.ParseInt(s.where.value.value);
            var (pc, t') := Step(Begin, s, schema, x, t);
            && t'.file == t.file && Coherent(t'.entry, t.file)
            && pc == if plan.None? || k.None? || Scan(t.file).Err? then Finished(Failed)
                     else if 1 <= k.value <= |RowsOf(t.file)| then Located(k.value, RowsOf(t.file)[k.value - 1].offset)
                     else Finished(Rows(plan.value.headers, []))
  {
    hide MapOf;
    LoadCoherent(t.entry, t.file, x.memory);
    var k := Numbers.ParseInt(s.where.value.value);
    if k.Some? && Scan(t.file).Ok? {
      IndexLookup(RowsOf(t.file), k.value);
    }
  }

  /** The two steps of an id lookup compose to that answer; the file stays and the index may get loaded. */
  lemma SelectByIdComposes(s: Statement, schema: Schema, x: Faults, t: Table)
    requires s.Select? && ById(s.where) && Ready(t) && (t.entry.loaded || x.memory)
    ensures var plan, k := SelectPlan(s.all, s.columns, schema), Numbers.ParseInt(s.where.value.value);
            var r := Execute(s, schema, x, t);
            && r.0 == (if plan.None? || k.None? then Failed
                 else FastSelect(t.file, plan.value, k.value, |schema.columns|))
            && r.1.file == t.file && Coherent(r.1.entry, t.file)
  {
    hide Coherent, FindRow, Scan, ReadAt, Project, SelectPlan, Numbers.ParseInt;
    LocateStep(s, schema, x, t);
    var (pc, t') := Step(Begin, s, schema, x, t);
    if pc.Located? {
      ScannedReadable(t.file, pc.id - 1);
      var r2 := Step(pc, s, schema, x, t');
      assert Execute(s, schema, x, t) == RunToEnd(pc, s, schema, x, t') == RunToEnd(r2.0, s, schema, x, r2.1);
    }
  }

  /**
   * When the index path and the scan must agree: all rows have schema width, or the wanted row itself is the odd one.
   */
  ghost predicate Comparable(f: File, plan: Option<Plan>, k: Option<int>, width: nat) {
    plan.None? || k.None? || Scan(f).Err? || WidthsMatch(RowsOf(f), width)
    || (1 <= k.value <= |RowsOf(f)| && |RowsOf(f)[k.value - 1].fields| != width)
  }

  lemma FastVersusScan(f: File, all: bool, columns: seq<string>, c: Condition, schema: Schema)
    requires c.column == "id" && SelectPlan(all, columns, schema).Some? && Numbers.ParseInt(c.value).Some?
    ensures var plan, k := SelectPlan(all, columns, schema), Numbers.ParseInt(c.value);
            FastSelect(f, plan.value, k.value, |schema.columns|) == ScanSelect(f, all, columns, Some(c), schema)
            <==> Comparable(f, plan, k, |schema.columns|)
  {
    hide Scan, Project, SelectPlan, Filter;
    var plan, k := SelectPlan(all, columns, schema), Numbers.ParseInt(c.value);
    if Scan(f).Ok? && WidthsMatch(RowsOf(f), |schema.columns|) {
      FilterById(RowsOf(f), 1, c, schema, plan.value.indexes, k.value);
    }
  }

  /** `WHERE id = k` through the index gives exactly what the linear scan gives, under exactly that condition. */
  lemma FastEqualsScan(s: Statement, schema: Schema, x: Faults, t: Table)
    requires s.Select? && ById(s.where) && Ready(t) && (t.entry.loaded || x.memory)
    ensures Execute(s, schema, x, t).0 == ScanSelect(t.file, s.all, s.columns, s.where, schema)
       <==> Comparable(t.file, SelectPlan(s.all, s.columns, schema), Numbers.ParseInt(s.where.value.value),
         |schema.columns|)
  {
    SelectByIdComposes(s, schema, x, t);
    hide Execute, Coherent, Scan, Filter, Project, SelectPlan, FastSelect, WidthsMatch;
    if SelectPlan(s.all, s.columns, schema).Some? && Numbers.ParseInt(s.where.value.value).Some? {
      FastVersusScan(t.file, s.all, s.columns, s.where.value, schema);
    }
  }

  /** Any other SELECT is the scan itself and touches nothing. */
  lemma SelectComposes(s: Statement, schema: Schema, x: Faults, t: Table)
    requires s.Select? && !ById(s.where)
    ensures Execute(s, schema, x, t) == (ScanSelect(t.file, s.all, s.columns, s.where, schema), t)
  {
  }

  // ---- the statement theorems ----

  lemma AppendedNonEmpty(f: File, row: seq<string>)
    requires f != ""
    ensures Appended(f, row) != ""
  {
  }

  lemma LoadedIfReady(t: Table)
    requires Ready(t) && Scan(t.file).Ok?
    ensures Loaded(t) == LoadedEntry(RowsOf(t.file))
  {
  }

  lemma NextOfLoaded(rows: seq<Row>)
    ensures LoadedEntry(rows).loaded && LoadedEntry(rows).tree.Sound? && LoadedEntry(rows).nextId == |rows| + 1
  {
  }

  lemma InsertKeepsReady(s: Statement, schema: Schema, x: Faults, t: Table)
    requires s.Insert? && SchemaOk(schema) && Ready(t) && CStrings(s)
    ensures Ready(Execute(s, schema, x, t).1) <==> (Execute(s, schema, x, t).0.Inserted? ==> Fits(s, schema))
  {
    hide Execute, Extended, LoadedEntry, Scan, Appended, Below, InsertRows.RowFor, InsertRows.DistinctNames;
    CoherentIsTidy(t.entry, t.file);
    InsertComposes(s, schema, x, t);
    NextOfLoaded(RowsOf(t.file));
    if InsertRows.Insertable(s.columns, s.values, schema) {
      var row := InsertRows.RowFor(s.columns, s.values, schema);
      AppendedNonEmpty(t.file, row);
      if Scan(t.file).Ok? {
        LoadedIfReady(t);
        RowWritable(s.columns, s.values, schema);
        ExtendedCoherent(t.file, row);
      }
    }
  }

  lemma ByIdKeepsReady(s: Statement, schema: Schema, x: Faults, t: Table)
    requires s.Select? && ById(s.where) && Ready(t)
    ensures Ready(Execute(s, schema, x, t).1) && Execute(s, schema, x, t).1.file == t.file
  {
    LoadCoherent(t.entry, t.file, x.memory);
    var r1 := Step(Begin, s, schema, x, t);
    assert Execute(s, schema, x, t) == RunToEnd(r1.0, s, schema, x, r1.1);
    if r1.0.Located? {
      var r2 := Step(r1.0, s, schema, x, r1.1);
      assert RunToEnd(r1.0, s, schema, x, r1.1) == RunToEnd(r2.0, s, schema, x, r2.1);
    }
  }

  /** A SELECT leaves the file alone and registers no row. */
  lemma SelectInsertsNothing(s: Statement, schema: Schema, x: Faults, t: Table)
    requires s.Select?
    ensures Execute(s, schema, x, t).1.file == t.file && !Execute(s, schema, x, t).0.Inserted?
  {
    hide Execute, ReadAt, FindRow, SelectPlan, Project, Scan, Filter, WidthsMatch;
    RunSelect(s, schema, x, t);
  }

  /**
   * After any statement, whatever fails in it, the index entry is coherent with the file, unless an INSERT registered a
   * row that does not fit the line buffer; and then it is not.
   */
  lemma ExecuteKeepsReady(s: Statement, schema: Schema, x: Faults, t: Table)
    requires SchemaOk(schema) && Ready(t) && CStrings(s)
    ensures Ready(Execute(s, schema, x, t).1) <==> (Execute(s, schema, x, t).0.Inserted? ==> Fits(s, schema))
  {
    hide Execute, Ready, Fits;
    if s.Insert? {
      InsertKeepsReady(s, schema, x, t);
    } else {
      SelectInsertsNothing(s, schema, x, t);
      if ById(s.where) {
        ByIdKeepsReady(s, schema, x, t);
      } else {
        SelectComposes(s, schema, x, t);
      }
    }
  }

  /** A statement that runs to its end leaves no index mid-split. */
  lemma ExecuteIntact(s: Statement, schema: Schema, x: Faults, t: Table)
    requires t.entry.tree.Sound?
    ensures Execute(s, schema, x, t).1.entry.tree.Sound?
  {
    hide Execute, RunToEnd, Scan, Appended, InsertRows.RowFor, InsertRows.DistinctNames;
    if s.Insert? {
      RunHead(s, schema, x, t);
      var r := NextId(t.entry, t.file, x.memory);
      if r.1.Some? && InsertRows.Insertable(s.columns, s.values, schema) {
        RunTail(s, schema, x, t.(entry := r.0), r.1.value, InsertRows.RowFor(s.columns, s.values, schema));
      }
    } else {
      RunSelect(s, schema, x, t);
    }
  }

  /** The file is the old one followed by the statement's row. */
  ghost predicate Appends(s: Statement, schema: Schema, f: File, f': File) {
    && s.Insert? && |s.columns| == |s.values|
    && f' == Appended(f, InsertRows.RowFor(s.columns, s.values, schema))
  }

  /** What any statement does to the file, in any state of the index: nothing, or one line at the end. */
  lemma ExecuteAppends(s: Statement, schema: Schema, x: Faults, t: Table)
    ensures var r := Execute(s, schema, x, t);
            r.1.file == t.file || Appends(s, schema, t.file, r.1.file)
    ensures var r := Execute(s, schema, x, t);
            r.0.Inserted? ==> Appends(s, schema, t.file, r.1.file) && InsertRows.Insertable(s.columns, s.values, schema)
  {
    hide Execute, RunToEnd, EnsureLoaded, Register, Appended, InsertRows.RowFor, InsertRows.DistinctNames;
    if s.Insert? {
      RunHead(s, schema, x, t);
      var r := NextId(t.entry, t.file, x.memory);
      if InsertRows.Insertable(s.columns, s.values, schema) && r.1.Some? {
        RunTail(s, schema, x, t.(entry := r.0), r.1.value, InsertRows.RowFor(s.columns, s.values, schema));
      }
    } else {
      SelectInsertsNothing(s, schema, x, t);
    }
  }

  /** On a ready table a registered id is one more than the number of rows, and the offset is where the row starts. */
  lemma InsertAnswer(s: Statement, schema: Schema, x: Faults, t: Table)
    requires s.Insert? && Ready(t) && Execute(s, schema, x, t).0.Inserted?
    ensures Scan(t.file).Ok?
    ensures Execute(s, schema, x, t).0 == Inserted(|RowsOf(t.file)| + 1, |Terminated(t.file)|)
  {
    hide Execute, Extended, Scan, Appended, Below, InsertRows.RowFor, InsertRows.DistinctNames;
    CoherentIsTidy(t.entry, t.file);
    InsertComposes(s, schema, x, t);
  }

  /** An acceptable INSERT on a ready, readable table succeeds if memory suffices and no failure is forced. */
  lemma InsertSucceeds(s: Statement, schema: Schema, x: Faults, t: Table)
    requires s.Insert? && Ready(t) && Scan(t.file).Ok? && InsertRows.Insertable(s.columns, s.values, schema)
    ensures Execute(s, schema, x, t).0 == Inserted(|RowsOf(t.file)| + 1, |Terminated(t.file)|)
       <==> (t.entry.loaded || x.memory) && !x.forced && x.room
  {
    hide Execute, Extended, Scan, Appended, Below, InsertRows.RowFor, InsertRows.DistinctNames;
    CoherentIsTidy(t.entry, t.file);
    InsertComposes(s, schema, x, t);
  }

  lemma NormalRowLength(row: seq<string>)
    ensures |Csv.NormalRow(row)| == |row|
  {
  }

  lemma InsertIsReference(s: Statement, schema: Schema, t: Table)
    requires s.Insert? && Ready(t)
    ensures var r := Execute(s, schema, NO_FAULTS, t); (r.0, r.1.file) == Reference(s, schema, t.file)
  {
    hide Execute, Extended, Scan, Appended, Below, InsertRows.RowFor, InsertRows.DistinctNames;
    CoherentIsTidy(t.entry, t.file);
    InsertComposes(s, schema, NO_FAULTS, t);
  }

  /** Without faults a statement does what the reference does, on files whose rows have schema width. */
  lemma ExecuteIsReference(s: Statement, schema: Schema, t: Table)
    requires Ready(t) && WidthsMatch(RowsOf(t.file), |schema.columns|)
    ensures var r := Execute(s, schema, NO_FAULTS, t); (r.0, r.1.file) == Reference(s, schema, t.file)
  {
    hide Execute, Scan, ScanSelect, WidthsMatch, Coherent, FastSelect, SelectPlan, InsertRows.Insertable;
    if s.Insert? {
      InsertIsReference(s, schema, t);
    } else if ById(s.where) {
      FastEqualsScan(s, schema, NO_FAULTS, t);
      ByIdKeepsReady(s, schema, NO_FAULTS, t);
    } else {
      SelectComposes(s, schema, NO_FAULTS, t);
    }
  }

  /** The reference keeps all rows at schema width as long as the rows it writes fit the line buffer. */
  lemma ReferenceWidths(s: Statement, schema: Schema, f: File)
    requires SchemaOk(schema) && CStrings(s) && f != "" && WidthsMatch(RowsOf(f), |schema.columns|)
    requires Reference(s, schema, f).0.Inserted? ==> Fits(s, schema)
    ensures WidthsMatch(RowsOf(Reference(s, schema, f).1), |schema.columns|)
  {
    hide ScanFrom, Csv.Encode, Csv.NormalRow, Appended, InsertRows.RowFor, InsertRows.DistinctNames;
    if s.Insert? && InsertRows.Insertable(s.columns, s.values, schema) && Scan(f).Ok? {
      var row := InsertRows.RowFor(s.columns, s.values, schema);
      RowWritable(s.columns, s.values, schema);
      AppendScan(f, row);
      NormalRowLength(row);
      RowLength(s.columns, s.values, schema);
    }
  }

  lemma RowLength(columns: seq<string>, values: seq<string>, schema: Schema)
    requires |columns| == |values|
    ensures |InsertRows.RowFor(columns, values, schema)| == |schema.columns|
  {
  }

  /** With faults an INSERT fails or answers as the reference does, and the file is the old one or the reference's. */
  lemma FaultyExecute(s: Statement, schema: Schema, x: Faults, t: Table)
    requires s.Insert? && Ready(t)
    ensures var r, ref := Execute(s, schema, x, t), Reference(s, schema, t.file);
            && (r.0 == Failed || (r.0 == ref.0 && r.1.file == ref.1))
            && (r.1.file == t.file || r.1.file == ref.1)
  {
    hide Execute, Extended, Scan, Appended, Below, InsertRows.RowFor, InsertRows.DistinctNames;
    CoherentIsTidy(t.entry, t.file);
    InsertComposes(s, schema, x, t);
  }

  /** The new file has one more row, the statement's, at the end of the old one. */
  ghost predicate GainsRow(s: Statement, schema: Schema, f: File, f': File)
    requires s.Insert?
  {
    && |s.columns| == |s.values|
    && RowsOf(f') == RowsOf(f) + [Row(|Terminated(f)|, Csv.NormalRow(InsertRows.RowFor(s.columns, s.values, schema)))]
  }

  /** A registered id is the next row number; the row has that number in the file exactly if it fits the line buffer. */
  lemma InsertedRow(s: Statement, schema: Schema, x: Faults, t: Table)
    requires s.Insert? && SchemaOk(schema) && Ready(t) && CStrings(s) && Execute(s, schema, x, t).0.Inserted?
    ensures var r := Execute(s, schema, x, t);
            && r.0 == Inserted(|RowsOf(t.file)| + 1, |Terminated(t.file)|)
            && (GainsRow(s, schema, t.file, r.1.file) <==> Fits(s, schema))
  {
    hide Execute, ScanFrom, Csv.Encode, Csv.NormalRow, Appended, Coherent, InsertRows.RowFor, InsertRows.DistinctNames;
    InsertAnswer(s, schema, x, t);
    ExecuteAppends(s, schema, x, t);
    RowWritable(s.columns, s.values, schema);
    AppendScan(t.file, InsertRows.RowFor(s.columns, s.values, schema));
  }

  /**
   * The bound is exact for answers, too: of two INSERTs in a row, the second is answered as the reference answers it if
   * and only if the row of the first fits the line buffer.
   */
  lemma SecondInsertAgrees(s: Statement, u: Statement, schema: Schema, t: Table)
    requires s.Insert? && u.Insert? && SchemaOk(schema) && Ready(t) && Scan(t.file).Ok? && CStrings(s)
    requires InsertRows.Insertable(s.columns, s.values, schema) && InsertRows.Insertable(u.columns, u.values, schema)
    ensures Execute(u, schema, NO_FAULTS, Execute(s, schema, NO_FAULTS, t).1).0
            == Reference(u, schema, Reference(s, schema, t.file).1).0
       <==> Fits(s, schema)
  {
    hide Execute, Scan, Csv.Encode, Appended, LoadedEntry, InsertRows.RowFor, InsertRows.DistinctNames;
    var first := Execute(s, schema, NO_FAULTS, t).1;
    var row, e := InsertRows.RowFor(s.columns, s.values, schema), Loaded(t);
    CoherentIsTidy(t.entry, t.file);
    LoadedIsTidy(RowsOf(t.file));
    NextOfLoaded(RowsOf(t.file));
    InsertComposes(s, schema, NO_FAULTS, t);
    RegisterTidy(e, t.file, |Terminated(t.file)|, false, true, true);
    InsertComposes(u, schema, NO_FAULTS, first);
    LoadedIfReady(t);
    RowWritable(s.columns, s.values, schema);
    AppendScan(t.file, row);
    if Scan(Appended(t.file, row)).Ok? {
      AppendGrows(t.file, row);
    }
  }
}
