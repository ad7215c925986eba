/** What concurrent clients observe over a whole run: ids grow, and a registered row is found by later requests. */
module EngineDurable {
  import opened Ast
  import opened TableFile
  import opened IndexSpec
  import opened ExecSpec
  import opened ExecFacts
  import opened Durable
  import opened Engine
  import opened EngineRegistry
  import opened EngineSerial
  import opened EngineRuns
  import opened Ids
  import Numbers
  import InsertRows

  // ---- registered ids ----

  ghost function After(c: Config, order: seq<Job>, n: nat, k: string): Table
    requires ConfigOk(c) && AllKnown(c, order) && n <= |order| && k in c.init
  {
    Serial(c, order[..n])[k]
  }

  /** What the `n`-th request does to a table. */
  lemma AfterStep(c: Config, order: seq<Job>, n: nat, k: string)
    requires ConfigOk(c) && AllKnown(c, order) && n < |order| && k in c.init
    ensures Known(c, order[n])
    ensures k != KeyOf(c, order[n]) ==> After(c, order, n + 1, k) == After(c, order, n, k)
    ensures k == KeyOf(c, order[n]) ==>
              (SerialOutcome(c, order, n), After(c, order, n + 1, k)) == JobRun(c, order[n], After(c, order, n, k))
  {
    hide JobRun, Serial;
    assert order[..n + 1] == order[..n] + [order[n]];
    SerialSnoc(c, order[..n], order[n]);
  }

  lemma JobFloor(c: Config, j: Job, t: Table, floor: int)
    requires Healthy(c) && Known(c, j) && IdFloor(t, floor)
    ensures var r := JobRun(c, j, t);
            if r.0.Inserted? then r.0.id > floor && IdFloor(r.1, r.0.id) else IdFloor(r.1, floor)
  {
    hide Execute, IdFloor, CStrings, Ready;
    ExecuteFloor(c.requests[j].s, SchemaOf(c, j), c.requests[j].x, t, floor);
  }

  lemma {:induction false} FloorKept(c: Config, order: seq<Job>, n: nat, m: nat, k: string, floor: int)
    requires Healthy(c) && AllKnown(c, order) && n <= m <= |order| && k in c.init
    requires IdFloor(After(c, order, n, k), floor)
    ensures IdFloor(After(c, order, m, k), floor)
  {
    hide JobRun, IdFloor, After, KeyOf, Ready, CStrings;
    if n < m {
      FloorKept(c, order, n, m - 1, k, floor);
      AfterStep(c, order, m - 1, k);
      var t := After(c, order, m - 1, k);
      if k == KeyOf(c, order[m - 1]) {
        JobFloor(c, order[m - 1], t, floor);
        if SerialOutcome(c, order, m - 1).Inserted? {
          LowerFloor(After(c, order, m, k), SerialOutcome(c, order, m - 1).id, floor);
        }
      }
    }
  }

  /** Ids registered on one table grow with the grant order, whatever faults occur and however long the rows are. */
  lemma IdsGrow(c: Config, order: seq<Job>, i: nat, m: nat)
    requires Healthy(c) && AllKnown(c, order) && i < m < |order| && KeyOf(c, order[i]) == KeyOf(c, order[m])
    requires SerialOutcome(c, order, i).Inserted? && SerialOutcome(c, order, m).Inserted?
    ensures SerialOutcome(c, order, i).id < SerialOutcome(c, order, m).id
  {
    hide JobRun, IdFloor, Ready, CStrings, SerialOutcome;
    var k := KeyOf(c, order[i]);
    assert k in c.init by {
      assert Known(c, order[i]);
    }
    assert After(c, order, 0, k) == c.init[k] by {
      assert order[..0] == [];
    }
    ReadyFloor(c.init[k]);
    hide After, Serial;
    FloorKept(c, order, 0, i, k, 0);
    AfterStep(c, order, i, k);
    JobFloor(c, order[i], After(c, order, i, k), 0);
    FloorKept(c, order, i + 1, m, k, SerialOutcome(c, order, i).id);
    AfterStep(c, order, m, k);
    JobFloor(c, order[m], After(c, order, m, k), SerialOutcome(c, order, i).id);
  }

  /**
   * While the rows registered before fit the line buffer, a registered id is one more than the number of rows, and it
   * is the number of rows afterwards exactly if its own row fits.
   */
  lemma CountStep(c: Config, order: seq<Job>, n: nat, k: string)
    requires Healthy(c) && AllKnown(c, order) && n < |order| && k == KeyOf(c, order[n]) && k in c.init
    requires TablesReady(c, order[..n]) && SerialOutcome(c, order, n).Inserted?
    ensures SerialOutcome(c, order, n).id == |RowsOf(After(c, order, n, k).file)| + 1
    ensures SerialOutcome(c, order, n).id == |RowsOf(After(c, order, n + 1, k).file)|
       <==> Fits(c.requests[order[n]].s, SchemaOf(c, order[n]))
  {
    hide Execute, Serial, SerialOutcome, RowsOf, Coherent, Fits, CStrings;
    AfterStep(c, order, n, k);
    var j, t := order[n], After(c, order, n, k);
    var r := c.requests[j];
    SelectOrInsert(r.s, SchemaOf(c, j), r.x, t);
    RowCounts(r.s, SchemaOf(c, j), r.x, t);
  }

  lemma SelectOrInsert(s: Statement, schema: Schema, x: Faults, t: Table)
    ensures Execute(s, schema, x, t).0.Inserted? ==> s.Insert?
  {
    hide Execute, Appends, InsertRows.Insertable;
    ExecuteAppends(s, schema, x, t);
    if s.Select? {
      SelectInsertsNothing(s, schema, x, t);
    }
  }

  lemma RowCounts(s: Statement, schema: Schema, x: Faults, t: Table)
    requires s.Insert? && SchemaOk(schema) && CStrings(s) && Ready(t) && Execute(s, schema, x, t).0.Inserted?
    ensures var r := Execute(s, schema, x, t);
            && r.0.id == |RowsOf(t.file)| + 1
            && (r.0.id == |RowsOf(r.1.file)| <==> Fits(s, schema))
  {
    hide Execute, Scan, Appended, Coherent, InsertRows.RowFor, InsertRows.DistinctNames;
    InsertedRow(s, schema, x, t);
    ExecuteAppends(s, schema, x, t);
    RowWritable(s.columns, s.values, schema);
    var f' := Execute(s, schema, x, t).1.file;
    if Scan(f').Ok? {
      AppendGrows(t.file, InsertRows.RowFor(s.columns, s.values, schema));
    }
  }

  // ---- reading what was written ----

  lemma JobAnchored(c: Config, j: Job, t: Table, id: int, row: Row)
    requires Known(c, j) && Anchored(t, id, row)
    ensures Anchored(JobRun(c, j, t).1, id, row)
  {
    hide Execute, Anchored;
    ExecuteAnchored(c.requests[j].s, SchemaOf(c, j), c.requests[j].x, t, id, row);
  }

  lemma {:induction false} StaysAnchored(c: Config, order: seq<Job>, n: nat, m: nat, k: string, id: int, row: Row)
    requires ConfigOk(c) && AllKnown(c, order) && n <= m <= |order| && k in c.init
    requires Anchored(After(c, order, n, k), id, row)
    ensures Anchored(After(c, order, m, k), id, row)
  {
    hide JobRun, Anchored, After, KeyOf;
    if n < m {
      StaysAnchored(c, order, n, m - 1, k, id, row);
      AfterStep(c, order, m - 1, k);
      if k == KeyOf(c, order[m - 1]) {
        JobAnchored(c, order[m - 1], After(c, order, m - 1, k), id, row);
      }
    }
  }

  /** Request `m` looks up the id that request `i` registered on the same table. */
  ghost predicate LooksUp(c: Config, order: seq<Job>, i: nat, m: nat)
    requires ConfigOk(c) && AllKnown(c, order)
  {
    && i < m < |order| && SchemaOf(c, order[i]) == SchemaOf(c, order[m])
    && c.requests[order[i]].s.Insert? && SerialOutcome(c, order, i).Inserted?
    && SerialOutcome(c, order, i).id <= Numbers.INT_MAX
    && !c.requests[order[m]].forcedError && c.requests[order[m]].outputStream
    && c.requests[order[m]].s == SelectById(c.requests[order[i]].s.table, SerialOutcome(c, order, i).id)
  }

  /** The row that request `i` registered, as it is read back. */
  ghost function RowOfJob(c: Config, j: Job): (row: seq<string>)
    requires Known(c, j)
    ensures |row| == |SchemaOf(c, j).columns|
  {
    var s := c.requests[j].s;
    if s.Insert? && |s.columns| == |s.values| then StoredRow(s, SchemaOf(c, j)) else SchemaOf(c, j).columns
  }

  lemma JobAnchors(c: Config, j: Job, t: Table)
    requires Healthy(c) && Known(c, j) && Ready(t) && c.requests[j].s.Insert? && JobRun(c, j, t).0.Inserted?
    requires Fits(c.requests[j].s, SchemaOf(c, j))
    ensures var (answer, t') := JobRun(c, j, t);
            answer.id >= 1 && Anchored(t', answer.id, Row(answer.offset, RowOfJob(c, j)))
  {
    hide Execute, Anchored, Ready, Fits, CStrings, StoredRow;
    InsertAnchors(c.requests[j].s, SchemaOf(c, j), c.requests[j].x, t);
  }

  /**
   * The serial form: a request that looks up the id an earlier request on the same table registered answers with the
   * row of that request exactly if the index is loaded then or can be built. Up to that row all rows fit the line
   * buffer; what came later may be of any length.
   */
  lemma SerialRead(c: Config, order: seq<Job>, i: nat, m: nat)
    requires Healthy(c) && AllKnown(c, order) && LooksUp(c, order, i, m) && KeyOf(c, order[i]) in c.init
    requires AnswersFit(c, order[..i + 1])
    ensures SerialOutcome(c, order, m) == Rows(SchemaOf(c, order[i]).columns, [RowOfJob(c, order[i])])
       <==> Usable(After(c, order, m, KeyOf(c, order[i])), c.requests[order[m]].x)
  {
    hide Execute, Serial, SerialOutcome, Coherent, Fits, CStrings, SelectById, RowOfJob, Usable, Anchored;
    var k, j := KeyOf(c, order[i]), order[i];
    var t, answer := After(c, order, i, k), SerialOutcome(c, order, i);
    FitPrefix(c, order[..i + 1], i);
    assert order[..i + 1][..i] == order[..i] && order[..i + 1][i] == j;
    SerialReady(c, order[..i]);
    OutcomeFromPrefix(c, order[..i + 1], order, i);
    AfterStep(c, order, i, k);
    AfterStep(c, order, m, k);
    var row := Row(answer.offset, RowOfJob(c, j));
    JobAnchors(c, j, t);
    StaysAnchored(c, order, i + 1, m, k, answer.id, row);
    AnchoredRowIsFound(c.requests[j].s.table, SchemaOf(c, j), c.requests[order[m]].x, After(c, order, m, k), answer.id,
                       row);
  }

  /**
   * In any interleaving of requests for the indexes of at most four tables: if one request registered a row and a later
   * granted one looked up its id, the answer is that row, exactly if the index was loaded or could be built.
   */
  lemma ConcurrentRead(c: Config, s: State, schedule: seq<Job>, i: nat, m: nat)
    requires Healthy(c) && Init(c, s) && FewTables(c) && AllDone(RunSchedule(c, s, schedule))
    requires var order := RunSchedule(c, s, schedule).grants;
             && AllKnown(c, order) && LooksUp(c, order, i, m) && KeyOf(c, order[i]) in c.init
             && AnswersFit(c, order[..i + 1])
    ensures var s' := RunSchedule(c, s, schedule);
            var first, second := s'.grants[i], s'.grants[m];
            && second < |s'.pcs|
            && (s'.pcs[second] == Done(Rows(SchemaOf(c, first).columns, [RowOfJob(c, first)]))
                <==> Usable(After(c, s'.grants, m, KeyOf(c, first)), c.requests[second].x))
  {
    hide RunSchedule, Serial, SerialOutcome, AnswersFit, Ready, CStrings, Init, FewTables, RowOfJob, Usable, After;
    SerialEquivalence(c, s, schedule);
    SerialRead(c, RunSchedule(c, s, schedule).grants, i, m);
  }
}
