/** Statement execution as a sequence of small steps on a table, and the index-free reference it is compared with. */
module ExecSpec {
  import opened Wrappers
  import opened Ast
  import opened TableFile
  import opened IndexSpec
  import InsertRows
  import Numbers

  /** Column number that stands for the internal id. */
  const INTERNAL_ID := -1

  datatype Outcome =
    | Failed
    | Inserted(id: int, offset: nat)
    | Rows(headers: seq<string>, rows: seq<seq<string>>)

  datatype Plan = Plan(headers: seq<string>, indexes: seq<int>)

  predicate IndexesOk(indexes: seq<int>, width: nat) {
    forall i | 0 <= i < |indexes| :: INTERNAL_ID <= indexes[i] < width
  }

  /** The output columns of a SELECT; None for an unknown column or an empty list. */
  function SelectPlan(all: bool, columns: seq<string>, schema: Schema): (p: Option<Plan>)
    ensures p.Some? ==> IndexesOk(p.value.indexes, |schema.columns|)
  {
    if all then Some(Plan(schema.columns, seq(|schema.columns|, i => i)))
    else if columns == [] || exists c | c in columns :: c != "id" && c !in schema.columns then None
    else Some(Plan(columns, seq(|columns|, i requires 0 <= i < |columns| =>
                                  if columns[i] == "id" then INTERNAL_ID
                                    else InsertRows.IndexOf(schema.columns, columns[i]))))
  }

  predicate WhereKnown(where: Option<Condition>, schema: Schema) {
    where.Some? ==> where.value.column == "id" || where.value.column in schema.columns
  }

  predicate ById(where: Option<Condition>) {
    where.Some? && where.value.column == "id"
  }

  /** The selected columns of one row. */
  function Project(fields: seq<string>, indexes: seq<int>, id: int): seq<string>
    requires IndexesOk(indexes, |fields|)
  {
    if indexes == [] then []
    else [if indexes[0] == INTERNAL_ID then Numbers.IntText(id) else fields[indexes[0]]]
         + Project(fields, indexes[1..], id)
  }

  predicate WidthsMatch(rows: seq<Row>, width: nat) {
    forall i | 0 <= i < |rows| :: |rows[i].fields| == width
  }

  /** Whether row number `id` satisfies the condition; an id is its row number. */
  predicate Matches(where: Option<Condition>, schema: Schema, fields: seq<string>, id: int)
    requires WhereKnown(where, schema) && |fields| == |schema.columns|
  {
    match where
    case None => true
    case Some(c) =>
      if c.column == "id" then Numbers.ParseInt(c.value) == Some(id)
      else fields[InsertRows.IndexOf(schema.columns, c.column)] == c.value
  }

  /** The linear scan: rows numbered from `first`, filtered and projected. */
  function Filter(rows: seq<Row>, first: int, where: Option<Condition>, schema: Schema,
                  indexes: seq<int>): seq<seq<string>>
    requires WhereKnown(where, schema) && WidthsMatch(rows, |schema.columns|)
    requires IndexesOk(indexes, |schema.columns|)
  {
    if rows == [] then []
    else (if Matches(where, schema, rows[0].fields, first) then [Project(rows[0].fields, indexes, first)] else [])
         + Filter(rows[1..], first + 1, where, schema, indexes)
  }

  /** SELECT by scanning the whole file, for every kind of condition. */
  function ScanSelect(f: File, all: bool, columns: seq<string>, where: Option<Condition>, schema: Schema): Outcome {
    var plan := SelectPlan(all, columns, schema);
    if plan.None? || !WhereKnown(where, schema) then Failed
    else if ById(where) && Numbers.ParseInt(where.value.value).None? then Failed
    else if Scan(f).Err? || !WidthsMatch(Scan(f).value, |schema.columns|) then Failed
    else Rows(plan.value.headers, Filter(Scan(f).value, 1, where, schema, plan.value.indexes))
  }

  /** The reference semantics: no index, every id recomputed from the file. */
  ghost function Reference(s: Statement, schema: Schema, f: File): (Outcome, File) {
    match s
    case Insert(_, columns, values) =>
      if !InsertRows.Insertable(columns, values, schema) || Scan(f).Err? then (Failed, f)
      else (Inserted(|Scan(f).value| + 1, |Terminated(f)|), Appended(f, InsertRows.RowFor(columns, values, schema)))
    case Select(_, all, columns, where) => (ScanSelect(f, all, columns, where, schema), f)
  }

  // ---- the steps of the real execution ----

  datatype Table = Table(file: File, entry: Entry)

  /**
   * What goes wrong in one statement: the allocator during a rebuild, the test hook, the allocator during an
   * insertion.
   */
  datatype Faults = Faults(memory: bool, forced: bool, room: bool)

  const NO_FAULTS := Faults(true, false, true)

  datatype Pc =
    | Begin
    | HasId(id: int)
    | HasRow(id: int, row: seq<string>)
    | Written(id: int, offset: nat)
    | Unregistered
    | Located(id: int, at: int)
    | Finished(outcome: Outcome)

  ghost function Step(pc: Pc, s: Statement, schema: Schema, x: Faults, t: Table): (Pc, Table) {
    match s
    case Insert(_, columns, values) => InsertStep(pc, columns, values, schema, x, t)
    case Select(_, all, columns, where) => SelectStep(pc, all, columns, where, schema, x, t)
  }

  /** validate; next id (loading the index); build the row; append; register; invalidate on failure. */
  ghost function InsertStep(pc: Pc, columns: seq<string>, values: seq<string>, schema: Schema, x: Faults,
                            t: Table): (Pc, Table) {
    match pc
    case Begin =>
      if !InsertRows.Valid(columns, values, schema) then (Finished(Failed), t)
      else
        var r := NextId(t.entry, t.file, x.memory);
        (if r.1.None? then Finished(Failed) else HasId(r.1.value), t.(entry := r.0))
    case HasId(id) =>
      if |columns| != |values| || !InsertRows.DistinctNames(columns) then (Finished(Failed), t)
      else (HasRow(id, InsertRows.RowFor(columns, values, schema)), t)
    case HasRow(id, row) => (Written(id, |Terminated(t.file)|), t.(file := Appended(t.file, row)))
    case Written(id, offset) =>
      var r := Register(t.entry, t.file, id, offset, x.forced, x.memory, x.room);
      (if r.1 then Finished(Inserted(id, offset)) else Unregistered, t.(entry := r.0))
    case Unregistered => (Finished(Failed), t.(entry := NEW_ENTRY))
    case _ => (Finished(Failed), t)
  }

  /** plan; then either the index path (lookup, read at the offset) or the scan. */
  ghost function SelectStep(pc: Pc, all: bool, columns: seq<string>, where: Option<Condition>, schema: Schema,
                            x: Faults, t: Table): (Pc, Table) {
    var plan := SelectPlan(all, columns, schema);
    if plan.None? || !WhereKnown(where, schema) then (Finished(Failed), t)
    else match pc
    case Begin =>
      if !ById(where) then (Finished(ScanSelect(t.file, all, columns, where, schema)), t)
      else
        var k := Numbers.ParseInt(where.value.value);
        if k.None? then (Finished(Failed), t)
        else
          var r := FindRow(t.entry, t.file, k.value, x.memory);
          (if r.1.None? then Finished(Failed)
           else if r.1.value.None? then Finished(Rows(plan.value.headers, []))
           else Located(k.value, r.1.value.value), t.(entry := r.0))
    case Located(id, offset) =>
      var row := if offset < 0 then Err else ReadAt(t.file, offset);
      (if row.Err? || |row.value| != |schema.columns| then Finished(Failed)
       else Finished(Rows(plan.value.headers, [Project(row.value, plan.value.indexes, id)])), t)
    case _ => (Finished(Failed), t)
  }

  function StepsLeft(pc: Pc): nat {
    match pc
    case Begin => 5 case HasId(_) => 4 case HasRow(_, _) => 3 case Written(_, _) => 2
    case Unregistered => 1 case Located(_, _) => 1 case Finished(_) => 0
  }

  lemma StepAdvances(pc: Pc, s: Statement, schema: Schema, x: Faults, t: Table)
    requires !pc.Finished?
    ensures StepsLeft(Step(pc, s, schema, x, t).0) < StepsLeft(pc)
  {
  }

  /** The rest of an execution that nothing interrupts. */
  ghost function RunToEnd(pc: Pc, s: Statement, schema: Schema, x: Faults, t: Table): (Outcome, Table)
    decreases StepsLeft(pc)
  {
    if pc.Finished? then (pc.outcome, t)
    else
      StepAdvances(pc, s, schema, x, t);
      var r := Step(pc, s, schema, x, t);
      RunToEnd(r.0, s, schema, x, r.1)
  }

  ghost function Execute(s: Statement, schema: Schema, x: Faults, t: Table): (Outcome, Table) {
    RunToEnd(Begin, s, schema, x, t)
  }

  /** An INSERT from the append on. */
  lemma RunTail(s: Statement, schema: Schema, x: Faults, t: Table, id: int, row: seq<string>)
    requires s.Insert?
    ensures var file := Appended(t.file, row);
            var r := Register(t.entry, file, id, |Terminated(t.file)|, x.forced, x.memory, x.room);
            RunToEnd(HasRow(id, row), s, schema, x, t)
            == if r.1 then (Inserted(id, |Terminated(t.file)|), Table(file, r.0)) else (Failed, Table(file, NEW_ENTRY))
  {
    hide Register, Appended;
    var r3 := Step(HasRow(id, row), s, schema, x, t);
    var r4 := Step(r3.0, s, schema, x, r3.1);
    assert RunToEnd(HasRow(id, row), s, schema, x, t) == RunToEnd(r3.0, s, schema, x, r3.1) ==
             RunToEnd(r4.0, s, schema, x, r4.1);
    if r4.0.Unregistered? {
      var r5 := Step(r4.0, s, schema, x, r4.1);
      assert RunToEnd(r4.0, s, schema, x, r4.1) == RunToEnd(r5.0, s, schema, x, r5.1);
    }
  }

  /** An INSERT up to the append. */
  lemma RunHead(s: Statement, schema: Schema, x: Faults, t: Table)
    requires s.Insert?
    ensures var r := NextId(t.entry, t.file, x.memory);
            Execute(s, schema, x, t)
            == if !InsertRows.Valid(s.columns, s.values, schema) then (Failed, t)
               else if r.1.None? || !InsertRows.DistinctNames(s.columns) then (Failed, t.(entry := r.0))
               else RunToEnd(HasRow(r.1.value, InsertRows.RowFor(s.columns, s.values, schema)), s, schema, x,
                 t.(entry := r.0))
  {
    hide NextId, InsertRows.DistinctNames, InsertRows.RowFor;
    var r1 := Step(Begin, s, schema, x, t);
    assert Execute(s, schema, x, t) == RunToEnd(r1.0, s, schema, x, r1.1);
    if r1.0.HasId? {
      var r2 := Step(r1.0, s, schema, x, r1.1);
      assert RunToEnd(r1.0, s, schema, x, r1.1) == RunToEnd(r2.0, s, schema, x, r2.1);
    }
  }

  /** A SELECT in one piece. */
  lemma RunSelect(s: Statement, schema: Schema, x: Faults, t: Table)
    requires s.Select?
    ensures var plan := SelectPlan(s.all, s.columns, schema);
            (plan.None? || !WhereKnown(s.where, schema)) ==> Execute(s, schema, x, t) == (Failed, t)
    ensures SelectPlan(s.all, s.columns, schema).Some? && WhereKnown(s.where, schema) && !ById(s.where) ==>
              Execute(s, schema, x, t) == (ScanSelect(t.file, s.all, s.columns, s.where, schema), t)
    ensures SelectPlan(s.all, s.columns, schema).Some? && ById(s.where) ==>
              Execute(s, schema, x, t) == ByIdResult(s, schema, x, t)
  {
    hide SelectPlan, ScanSelect, FindRow, ReadAt, Project, Numbers.ParseInt;
    var r1 := Step(Begin, s, schema, x, t);
    assert Execute(s, schema, x, t) == RunToEnd(r1.0, s, schema, x, r1.1);
    if r1.0.Located? {
      var r2 := Step(r1.0, s, schema, x, r1.1);
      assert RunToEnd(r1.0, s, schema, x, r1.1) == RunToEnd(r2.0, s, schema, x, r2.1);
    }
  }

  ghost function ByIdResult(s: Statement, schema: Schema, x: Faults, t: Table): (Outcome, Table)
    requires s.Select? && ById(s.where) && SelectPlan(s.all, s.columns, schema).Some?
  {
    var plan, k := SelectPlan(s.all, s.columns, schema).value, Numbers.ParseInt(s.where.value.value);
    if k.None? then (Failed, t)
    else
      var r := FindRow(t.entry, t.file, k.value, x.memory);
      var t' := t.(entry := r.0);
      if r.1.None? then (Failed, t')
      else if r.1.value.None? then (Rows(plan.headers, []), t')
      else
        var row := if r.1.value.value < 0 then Err else ReadAt(t.file, r.1.value.value);
        if row.Err? || |row.value| != |schema.columns| then (Failed, t')
        else (Rows(plan.headers, [Project(row.value, plan.indexes, k.value)]), t')
  }
}
