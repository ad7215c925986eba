/** Whole runs of the engine: serial equivalence, agreement with the index-free reference, progress and termination. */
module EngineRuns {
  import opened Ast
  import opened TableFile
  import opened IndexSpec
  import opened ExecSpec
  import opened ExecFacts
  import opened Engine
  import opened EngineRegistry
  import opened EngineSerial

  /** The invariants hold after every schedule. */
  lemma {:induction false} InvAlways(c: Config, s: State, schedule: seq<Job>)
    requires Inv(c, s)
    ensures Inv(c, RunSchedule(c, s, schedule))
    decreases |schedule|
  {
    hide Inv, Next;
    if schedule != [] {
      InvSane(c, s);
      if schedule[0] < |s.pcs| && Next(c, s, schedule[0]).Some? {
        InvKept(c, s, schedule[0]);
      }
      InvAlways(c, Pick(c, s, schedule[0]), schedule[1..]);
    }
  }

  lemma InvSane(c: Config, s: State)
    requires Inv(c, s)
    ensures ConfigOk(c) && LocksOk(c, s) && AllSane(c, s)
  {
  }

  ghost predicate AllDone(s: State) {
    forall j | 0 <= j < |s.pcs| :: s.pcs[j].Done?
  }

  /**
   * The state is the outcome of serving the granted requests one by one. All other requests failed, and for no other
   * reason than an unknown table or a failed lock allocation.
   */
  ghost predicate Equivalent(c: Config, s: State) {
    && ConfigOk(c) && AllKnown(c, s.grants) && s.tables == Serial(c, s.grants)
    && (forall i, k | 0 <= i < k < |s.grants| :: s.grants[i] != s.grants[k])
    && (forall i | 0 <= i < |s.grants| ::
         s.grants[i] < |s.pcs| && s.pcs[s.grants[i]] == Done(SerialOutcome(c, s.grants, i)))
    && (forall j | 0 <= j < |s.pcs| && j !in s.grants :: s.pcs[j] == Done(Failed) && !Entitled(c, j))
  }

  lemma AtRest(c: Config, s: State)
    requires Inv(c, s) && AllDone(s)
    ensures Equivalent(c, s)
  {
    hide Serial, SerialOutcome, Sane, LocksOk;
    InvSane(c, s);
    SerialKeys(c, s.grants, s);
    forall i | 0 <= i < |s.grants| ensures s.pcs[s.grants[i]] == Done(SerialOutcome(c, s.grants, i)) {
      assert Answer(c, s, s.grants[i]) == SerialOutcome(c, s.grants, i);
    }
    assert forall k | k in s.tables :: Free(s, k) && s.tables[k] == Serial(c, s.grants)[k];
  }

  /**
   * Serial equivalence: however requests that reach the indexes of at most four tables interleave, once all are
   * finished the tables are those of serving the granted requests one by one in grant order, and each of them gave its
   * serial answer. Every request for a known table is granted unless its lock could not be allocated; all others
   * failed.
   */
  lemma SerialEquivalence(c: Config, s: State, schedule: seq<Job>)
    requires ConfigOk(c) && Init(c, s) && FewTables(c) && AllDone(RunSchedule(c, s, schedule))
    ensures Equivalent(c, RunSchedule(c, s, schedule))
  {
    hide Inv, Equivalent;
    InitInv(c, s);
    InvAlways(c, s, schedule);
    AtRest(c, RunSchedule(c, s, schedule));
  }

  lemma SerialKeys(c: Config, order: seq<Job>, s: State)
    requires ConfigOk(c) && AllKnown(c, order) && AllSane(c, s)
    ensures s.tables.Keys == Serial(c, order).Keys
  {
  }

  // ---- the serial run against the reference ----

  /** Every table starts ready; schemas come from the loader and values are C strings. */
  ghost predicate Healthy(c: Config) {
    && ConfigOk(c)
    && (forall k | k in c.init :: Ready(c.init[k]))
    && forall j | 0 <= j < |c.requests| && Known(c, j) :: SchemaOk(SchemaOf(c, j)) && CStrings(c.requests[j].s)
  }

  /** Each table has one schema. */
  ghost predicate OneSchema(c: Config) {
    forall n, m | n in c.catalog && m in c.catalog && c.catalog[n].storage == c.catalog[m].storage ::
      c.catalog[n] == c.catalog[m]
  }

  /** The requests meet no faults, each table has one schema, and its rows have that schema's width. */
  ghost predicate Undisturbed(c: Config, order: seq<Job>) {
    && (forall i | 0 <= i < |order| :: order[i] < |c.requests| && Known(c, order[i]) && Calm(c.requests[order[i]]))
    && OneSchema(c)
    && forall k | k in c.init :: InUse(c, c.init[k], k)
  }

  ghost predicate Calm(r: Request) {
    r.x == NO_FAULTS && !r.forcedError && r.outputStream
  }

  /** All rows registered in the serial run fit the line buffer. */
  ghost predicate AnswersFit(c: Config, order: seq<Job>)
    requires ConfigOk(c) && AllKnown(c, order)
  {
    forall i | 0 <= i < |order| && SerialOutcome(c, order, i).Inserted? ::
      Fits(c.requests[order[i]].s, SchemaOf(c, order[i]))
  }

  ghost predicate TablesReady(c: Config, order: seq<Job>)
    requires ConfigOk(c) && AllKnown(c, order)
  {
    forall k | k in c.init :: Ready(Serial(c, order)[k])
  }

  lemma JobKeepsReady(c: Config, j: Job, t: Table)
    requires Healthy(c) && Known(c, j) && Ready(t)
    ensures Ready(JobRun(c, j, t).1)
       <==> (JobRun(c, j, t).0.Inserted? ==> Fits(c.requests[j].s, SchemaOf(c, j)))
  {
    hide Execute, Ready, Fits, CStrings;
    ExecuteKeepsReady(c.requests[j].s, SchemaOf(c, j), c.requests[j].x, t);
  }

  lemma FitsSnoc(c: Config, order: seq<Job>, j: Job)
    requires ConfigOk(c) && AllKnown(c, order) && Known(c, j)
    ensures AllKnown(c, order + [j]) && KeyOf(c, j) in c.init
    ensures AnswersFit(c, order + [j]) <==>
              (AnswersFit(c, order)
               && (JobRun(c, j, Serial(c, order)[KeyOf(c, j)]).0.Inserted? ==> Fits(c.requests[j].s, SchemaOf(c, j))))
  {
    hide JobRun, Serial, SerialOutcome, Fits, KeyOf;
    SerialSnoc(c, order, j);
    assert forall i | 0 <= i < |order| :: (order + [j])[i] == order[i];
    assert (order + [j])[|order|] == j;
  }

  lemma ReadySnoc(c: Config, order: seq<Job>, j: Job)
    requires Healthy(c) && AllKnown(c, order) && Known(c, j) && TablesReady(c, order)
    ensures AllKnown(c, order + [j]) && KeyOf(c, j) in c.init
    ensures TablesReady(c, order + [j]) <==>
              (JobRun(c, j, Serial(c, order)[KeyOf(c, j)]).0.Inserted? ==> Fits(c.requests[j].s, SchemaOf(c, j)))
  {
    hide JobRun, SerialOutcome, Serial, Fits, Ready, KeyOf, CStrings;
    SerialSnoc(c, order, j);
    JobKeepsReady(c, j, Serial(c, order)[KeyOf(c, j)]);
    assert Serial(c, order + [j])[KeyOf(c, j)] == JobRun(c, j, Serial(c, order)[KeyOf(c, j)]).1;
  }

  /** Every table is ready at the start and after each request. */
  ghost predicate ReadyThroughout(c: Config, order: seq<Job>)
    requires ConfigOk(c) && AllKnown(c, order)
  {
    forall n | 0 <= n <= |order| :: TablesReady(c, order[..n])
  }

  lemma ThroughoutSnoc(c: Config, order: seq<Job>, j: Job)
    requires ConfigOk(c) && AllKnown(c, order) && AllKnown(c, order + [j])
    ensures ReadyThroughout(c, order + [j]) <==> ReadyThroughout(c, order) && TablesReady(c, order + [j])
    ensures ReadyThroughout(c, order) ==> TablesReady(c, order)
  {
    hide TablesReady;
    var longer := order + [j];
    assert order[..|order|] == order && longer[..|longer|] == longer;
    assert forall n | 0 <= n <= |order| :: longer[..n] == order[..n];
  }

  /**
   * In the serial run every index is coherent with its file at all times, whatever faults the requests meet, if and
   * only if all registered rows fit the line buffer.
   */
  lemma {:induction false} SerialReady(c: Config, order: seq<Job>)
    requires Healthy(c) && AllKnown(c, order)
    ensures ReadyThroughout(c, order) <==> AnswersFit(c, order)
    ensures AnswersFit(c, order) ==> TablesReady(c, order)
    decreases |order|, 1
  {
    hide AnswersFit, JobRun, Ready, KeyOf, CStrings;
    if order == [] {
      assert order[..0] == [];
      NoAnswers(c);
    } else {
      SerialReadySnoc(c, order[..|order| - 1], order[|order| - 1]);
      assert order == order[..|order| - 1] + [order[|order| - 1]];
    }
  }

  lemma NoAnswers(c: Config)
    requires ConfigOk(c)
    ensures AnswersFit(c, [])
  {
  }

  lemma {:induction false} SerialReadySnoc(c: Config, before: seq<Job>, j: Job)
    requires Healthy(c) && AllKnown(c, before) && Known(c, j)
    ensures AllKnown(c, before + [j]) && (ReadyThroughout(c, before + [j]) <==> AnswersFit(c, before + [j]))
    ensures AnswersFit(c, before + [j]) ==> TablesReady(c, before + [j])
    decreases |before| + 1, 0
  {
    hide TablesReady, AnswersFit, ReadyThroughout, JobRun, Serial, Ready, CStrings, KeyOf, Fits;
    SerialReady(c, before);
    FitsSnoc(c, before, j);
    ThroughoutSnoc(c, before, j);
    if TablesReady(c, before) {
      ReadySnoc(c, before, j);
    }
  }

  lemma FitPrefix(c: Config, order: seq<Job>, n: nat)
    requires ConfigOk(c) && AllKnown(c, order) && n <= |order| && AnswersFit(c, order)
    ensures AllKnown(c, order[..n]) && AnswersFit(c, order[..n])
  {
    hide Fits, SerialOutcome;
    forall i | 0 <= i < n ensures SerialOutcome(c, order[..n], i) == SerialOutcome(c, order, i) {
      OutcomeFromPrefix(c, order[..n], order, i);
    }
  }

  /** Files only, served one by one by the reference. */
  ghost function RefFiles(c: Config, order: seq<Job>): (m: map<string, File>)
    requires ConfigOk(c) && AllKnown(c, order)
    ensures m.Keys == c.init.Keys
  {
    if order == [] then map k | k in c.init :: c.init[k].file
    else
      var before := RefFiles(c, order[..|order| - 1]);
      var j := order[|order| - 1];
      assert KeyOf(c, j) in c.init;
      before[KeyOf(c, j) := Reference(c.requests[j].s, SchemaOf(c, j), before[KeyOf(c, j)]).1]
  }

  ghost function RefOutcome(c: Config, order: seq<Job>, i: nat): Outcome
    requires ConfigOk(c) && AllKnown(c, order) && i < |order|
  {
    assert KeyOf(c, order[i]) in c.init;
    Reference(c.requests[order[i]].s, SchemaOf(c, order[i]), RefFiles(c, order[..i])[KeyOf(c, order[i])]).0
  }

  /** All rows that the serial run registers on this table fit the line buffer. */
  ghost predicate FitsOn(c: Config, order: seq<Job>, k: string)
    requires ConfigOk(c) && AllKnown(c, order)
  {
    forall i | 0 <= i < |order| && KeyOf(c, order[i]) == k && SerialOutcome(c, order, i).Inserted? ::
      Fits(c.requests[order[i]].s, SchemaOf(c, order[i]))
  }

  /** A registered row that does not fit the line buffer belongs to the last request on its table. */
  ghost predicate LongRowsLast(c: Config, order: seq<Job>)
    requires ConfigOk(c) && AllKnown(c, order)
  {
    forall i, m | 0 <= i < m < |order| && KeyOf(c, order[i]) == KeyOf(c, order[m])
                  && SerialOutcome(c, order, i).Inserted? ::
      Fits(c.requests[order[i]].s, SchemaOf(c, order[i]))
  }

  /** The table is ready and its rows have the width of every schema it is known by. */
  ghost predicate InUse(c: Config, t: Table, k: string) {
    && Ready(t)
    && forall n | n in c.catalog && c.catalog[n].storage == k :: WidthsMatch(RowsOf(t.file), |c.catalog[n].columns|)
  }

  /** After the serial run the files are the reference's, and tables that got no long row are in use as before. */
  ghost predicate Same(c: Config, order: seq<Job>)
    requires ConfigOk(c) && AllKnown(c, order)
  {
    forall k | k in c.init :: SameOn(c, order, k)
  }

  ghost predicate SameOn(c: Config, order: seq<Job>, k: string)
    requires ConfigOk(c) && AllKnown(c, order) && k in c.init
  {
    && Serial(c, order)[k].file == RefFiles(c, order)[k]
    && (FitsOn(c, order, k) ==> InUse(c, Serial(c, order)[k], k))
  }

  lemma FitsOnSnoc(c: Config, before: seq<Job>, j: Job, k: string)
    requires ConfigOk(c) && AllKnown(c, before) && Known(c, j) && k in c.init
    ensures AllKnown(c, before + [j])
    ensures FitsOn(c, before + [j], k) ==> FitsOn(c, before, k)
    ensures FitsOn(c, before + [j], k) && KeyOf(c, j) == k ==>
              (JobRun(c, j, Serial(c, before)[k]).0.Inserted? ==> Fits(c.requests[j].s, SchemaOf(c, j)))
    ensures LongRowsLast(c, before + [j]) ==> LongRowsLast(c, before) && (KeyOf(c, j) == k ==> FitsOn(c, before, k))
  {
    hide JobRun, Serial, SerialOutcome, Fits;
    SerialSnoc(c, before, j);
    var order := before + [j];
    assert forall i | 0 <= i < |before| :: order[i] == before[i];
    assert order[|before|] == j;
  }

  /** What one request does to a table in use, by the serial run and by the reference. */
  lemma JobIsReference(c: Config, j: Job, t: Table)
    requires Healthy(c) && Known(c, j) && Calm(c.requests[j]) && InUse(c, t, KeyOf(c, j)) && OneSchema(c)
    ensures var r := JobRun(c, j, t); (r.0, r.1.file) == Reference(c.requests[j].s, SchemaOf(c, j), t.file)
    ensures var r := JobRun(c, j, t);
            (r.0.Inserted? ==> Fits(c.requests[j].s, SchemaOf(c, j))) ==> InUse(c, r.1, KeyOf(c, j))
  {
    hide Execute, Reference, WidthsMatch, Coherent, Fits, CStrings, RowsOf;
    var s, schema := c.requests[j].s, SchemaOf(c, j);
    ExecuteIsReference(s, schema, t);
    ExecuteKeepsReady(s, schema, NO_FAULTS, t);
    if JobRun(c, j, t).0.Inserted? ==> Fits(s, schema) {
      ReferenceWidths(s, schema, t.file);
    }
  }

  lemma SerialStep(c: Config, before: seq<Job>, j: Job, k: string)
    requires Healthy(c) && AllKnown(c, before) && Known(c, j) && OneSchema(c) && Calm(c.requests[j]) && k in c.init
    requires Same(c, before) && AllKnown(c, before + [j]) && LongRowsLast(c, before + [j])
    ensures SameOn(c, before + [j], k)
    ensures SerialOutcome(c, before + [j], |before|) == RefOutcome(c, before + [j], |before|)
  {
    hide JobRun, Serial, SerialOutcome, FitsOn, LongRowsLast, InUse, Reference, Fits, CStrings, Ready;
    var order, own := before + [j], KeyOf(c, j);
    assert order[|before|] == j && order[..|before|] == before;
    SerialSnoc(c, before, j);
    FitsOnSnoc(c, before, j, own);
    FitsOnSnoc(c, before, j, k);
    assert SameOn(c, before, own) && SameOn(c, before, k);
    JobIsReference(c, j, Serial(c, before)[own]);
  }

  lemma {:induction false} SerialFiles(c: Config, order: seq<Job>)
    requires Healthy(c) && AllKnown(c, order) && Undisturbed(c, order) && LongRowsLast(c, order)
    ensures Same(c, order)
    ensures order != [] ==> SerialOutcome(c, order, |order| - 1) == RefOutcome(c, order, |order| - 1)
    decreases |order|, 1
  {
    if order == [] {
      StartsSame(c);
    } else {
      hide Same, Undisturbed, LongRowsLast, SerialOutcome, RefOutcome, Healthy, Known;
      var before, j := order[..|order| - 1], order[|order| - 1];
      assert order == before + [j];
      SerialFilesSnoc(c, before, j);
    }
  }

  lemma {:induction false} SerialFilesSnoc(c: Config, before: seq<Job>, j: Job)
    requires Healthy(c) && AllKnown(c, before + [j]) && Undisturbed(c, before + [j]) && LongRowsLast(c, before + [j])
    ensures Same(c, before + [j])
    ensures SerialOutcome(c, before + [j], |before|) == RefOutcome(c, before + [j], |before|)
    decreases |before| + 1, 0
  {
    assert ConfigOk(c) by {
      HealthyConfig(c);
    }
    KnownSnoc(c, before, j);
    UndisturbedSnoc(c, before, j);
    hide Same, Undisturbed, LongRowsLast, SerialOutcome, RefOutcome, Healthy, OneSchema, Calm, KeyOf, FitsOn, AllKnown;
    FitsOnSnoc(c, before, j, KeyOf(c, j));
    SerialFiles(c, before);
    SerialStep(c, before, j, KeyOf(c, j));
    AllSame(c, before, j);
  }

  lemma KnownSnoc(c: Config, before: seq<Job>, j: Job)
    requires AllKnown(c, before + [j])
    ensures AllKnown(c, before) && Known(c, j)
  {
    var order := before + [j];
    assert order[|before|] == j && forall i | 0 <= i < |before| :: order[i] == before[i];
  }

  lemma UndisturbedSnoc(c: Config, before: seq<Job>, j: Job)
    requires ConfigOk(c) && Undisturbed(c, before + [j])
    ensures Undisturbed(c, before) && Known(c, j) && Calm(c.requests[j]) && OneSchema(c) && KeyOf(c, j) in c.init
  {
    hide InUse, OneSchema, Calm;
    var order := before + [j];
    assert order[|before|] == j;
    forall i | 0 <= i < |before|
      ensures before[i] < |c.requests| && Known(c, before[i]) && Calm(c.requests[before[i]])
    {
      assert order[i] == before[i];
    }
  }

  lemma StartsSame(c: Config)
    requires ConfigOk(c) && forall k | k in c.init :: InUse(c, c.init[k], k)
    ensures Same(c, [])
  {
    hide InUse;
  }

  lemma AllSame(c: Config, before: seq<Job>, j: Job)
    requires Healthy(c) && AllKnown(c, before) && Known(c, j) && OneSchema(c) && Calm(c.requests[j])
    requires Same(c, before) && AllKnown(c, before + [j]) && LongRowsLast(c, before + [j])
    ensures Same(c, before + [j])
  {
    hide SameOn, OneSchema, Calm, LongRowsLast, Healthy;
    assert ConfigOk(c) by {
      HealthyConfig(c);
    }
    forall k | k in c.init ensures SameOn(c, before + [j], k) {
      SerialStep(c, before, j, k);
    }
  }

  lemma HealthyConfig(c: Config)
    requires Healthy(c)
    ensures ConfigOk(c)
  {
  }

  lemma LongRowsPrefix(c: Config, order: seq<Job>, n: nat)
    requires ConfigOk(c) && AllKnown(c, order) && n <= |order| && LongRowsLast(c, order)
    ensures AllKnown(c, order[..n]) && LongRowsLast(c, order[..n])
  {
    hide Fits, SerialOutcome;
    forall i | 0 <= i < n ensures SerialOutcome(c, order[..n], i) == SerialOutcome(c, order, i) {
      OutcomeFromPrefix(c, order[..n], order, i);
    }
  }

  /** Prefixes of a run are runs: the `i`-th answer is the reference's for every `i`. */
  lemma {:induction false} SerialAnswers(c: Config, order: seq<Job>, i: nat)
    requires Healthy(c) && AllKnown(c, order) && Undisturbed(c, order) && LongRowsLast(c, order) && i < |order|
    ensures SerialOutcome(c, order, i) == RefOutcome(c, order, i)
  {
    hide Same, LongRowsLast, JobRun, Reference, Serial, RefFiles, Ready, CStrings, InUse;
    var prefix := order[..i + 1];
    LongRowsPrefix(c, order, i + 1);
    SerialFiles(c, prefix);
    assert prefix[..i] == order[..i] && prefix[i] == order[i];
  }

  /**
   * In every interleaving of undisturbed requests, all answers and all final files are those of the reference,
   * which knows no index, no lock and no concurrency, applied to the requests one by one in grant order: as long as no
   * request follows a row that does not fit the line buffer on its table.
   */
  lemma ConcurrentIsReference(c: Config, s: State, schedule: seq<Job>)
    requires Healthy(c) && Init(c, s) && FewTables(c) && AllDone(RunSchedule(c, s, schedule))
    requires Undisturbed(c, RunSchedule(c, s, schedule).grants)
    requires AllKnown(c, RunSchedule(c, s, schedule).grants) && LongRowsLast(c, RunSchedule(c, s, schedule).grants)
    ensures var s' := RunSchedule(c, s, schedule);
            && (forall k | k in c.init :: k in s'.tables && s'.tables[k].file == RefFiles(c, s'.grants)[k])
            && (forall k | k in c.init && FitsOn(c, s'.grants, k) :: Ready(s'.tables[k]))
            && (forall i | 0 <= i < |s'.grants| ::
                  s'.grants[i] < |s'.pcs| && s'.pcs[s'.grants[i]] == Done(RefOutcome(c, s'.grants, i)))
  {
    hide RunSchedule, Serial, SerialOutcome, RefFiles, RefOutcome, LongRowsLast, Undisturbed, Ready, Init, FewTables,
         FitsOn;
    SerialEquivalence(c, s, schedule);
    var s' := RunSchedule(c, s, schedule);
    SerialFiles(c, s'.grants);
    forall k | k in c.init
      ensures s'.tables[k].file == RefFiles(c, s'.grants)[k] && (FitsOn(c, s'.grants, k) ==> Ready(s'.tables[k]))
    {
      assert SameOn(c, s'.grants, k);
    }
    forall i | 0 <= i < |s'.grants| ensures s'.pcs[s'.grants[i]] == Done(RefOutcome(c, s'.grants, i)) {
      SerialAnswers(c, s'.grants, i);
    }
  }
}
