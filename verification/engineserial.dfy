/** Every interleaving of the engine equals a serial execution in the order the table locks were granted. */
module EngineSerial {
  import opened Wrappers
  import opened Ast
  import opened ExecSpec
  import opened Engine
  import opened EngineRegistry

  /** One request served alone on a table. */
  ghost function JobRun(c: Config, j: Job, t: Table): (Outcome, Table)
    requires Known(c, j)
  {
    var r := c.requests[j];
    if r.forcedError || !r.outputStream then (Failed, t) else Execute(r.s, SchemaOf(c, j), r.x, t)
  }

  ghost predicate AllKnown(c: Config, order: seq<Job>) {
    forall i | 0 <= i < |order| :: Known(c, order[i])
  }

  /** The tables after serving requests one by one. */
  ghost function Serial(c: Config, order: seq<Job>): (m: map<string, Table>)
    requires ConfigOk(c) && AllKnown(c, order)
    ensures m.Keys == c.init.Keys
  {
    if order == [] then c.init
    else
      var before := Serial(c, order[..|order| - 1]);
      var j := order[|order| - 1];
      assert KeyOf(c, j) in c.init;
      before[KeyOf(c, j) := JobRun(c, j, before[KeyOf(c, j)]).1]
  }

  /** The answer of the `i`-th request when they are served one by one. */
  ghost function SerialOutcome(c: Config, order: seq<Job>, i: nat): Outcome
    requires ConfigOk(c) && AllKnown(c, order) && i < |order|
  {
    assert KeyOf(c, order[i]) in c.init;
    JobRun(c, order[i], Serial(c, order[..i])[KeyOf(c, order[i])]).0
  }

  /** How the request that holds a table lock will end if nothing else touches the table. */
  ghost function Future(c: Config, s: State, j: Job): (Outcome, Table)
    requires Sane(c, s, j) && ConfigOk(c) && s.tables.Keys == c.init.Keys && HoldsTable(s.pcs[j])
  {
    var t := s.tables[s.pcs[j].key];
    match s.pcs[j]
    case HasTable(_, _) => JobRun(c, j, t)
    case Running(_, _, pc, _) => RunToEnd(pc, c.requests[j].s, SchemaOf(c, j), c.requests[j].x, t)
    case Releasing(_, _, o) => (o, t)
  }

  /** A request that was granted its lock holds it or has finished. */
  ghost predicate Granted(pc: JobPc) {
    HoldsTable(pc) || pc.Done?
  }

  /** The request cannot fail before its table lock is granted. */
  ghost predicate Entitled(c: Config, j: Job) {
    Known(c, j) && c.requests[j].lockMemory
  }

  ghost predicate OrderOk(c: Config, s: State) {
    && (forall i | 0 <= i < |s.grants| :: s.grants[i] < |s.pcs| && Known(c, s.grants[i]) && Granted(s.pcs[s.grants[i]]))
    && (forall i, k | 0 <= i < k < |s.grants| :: s.grants[i] != s.grants[k])
    && (forall j | 0 <= j < |s.pcs| && HoldsTable(s.pcs[j]) :: j in s.grants)
    && (forall j | 0 <= j < |s.pcs| && s.pcs[j].Done? && j !in s.grants :: RefusedEarly(c, s, j))
  }

  /** Without a grant a request fails, and only for an unknown table or a failed lock allocation. */
  ghost predicate RefusedEarly(c: Config, s: State, j: Job)
    requires j < |s.pcs| && s.pcs[j].Done?
  {
    s.pcs[j].outcome == Failed && !Entitled(c, j)
  }

  /** Tables nobody holds are as after the serial run; held ones will be. */
  ghost predicate TablesSerial(c: Config, s: State)
    requires ConfigOk(c) && AllSane(c, s) && AllKnown(c, s.grants)
  {
    && (forall j | 0 <= j < |s.pcs| && HoldsTable(s.pcs[j]) :: Future(c, s, j).1 == Serial(c, s.grants)[s.pcs[j].key])
    && (forall k | k in s.tables && Free(s, k) :: s.tables[k] == Serial(c, s.grants)[k])
  }

  ghost predicate Free(s: State, k: string) {
    forall j | 0 <= j < |s.pcs| && HoldsTable(s.pcs[j]) :: s.pcs[j].key != k
  }

  /** The answer a granted request has given or will give. */
  ghost function Answer(c: Config, s: State, j: Job): Outcome
    requires Sane(c, s, j) && ConfigOk(c) && s.tables.Keys == c.init.Keys && Granted(s.pcs[j])
  {
    if s.pcs[j].Done? then s.pcs[j].outcome else Future(c, s, j).0
  }

  ghost predicate AnswersSerial(c: Config, s: State)
    requires ConfigOk(c) && AllSane(c, s) && OrderOk(c, s)
  {
    forall i | 0 <= i < |s.grants| :: Answer(c, s, s.grants[i]) == SerialOutcome(c, s.grants, i)
  }

  ghost predicate Inv(c: Config, s: State) {
    && ConfigOk(c) && LocksOk(c, s) && FewTables(c) && SlotsOk(c, s)
    && OrderOk(c, s) && TablesSerial(c, s) && AnswersSerial(c, s)
  }

  /** At most one request is inside the locked region of a table, by whatever name it was reached. */
  lemma MutualExclusion(c: Config, s: State, i: Job, j: Job)
    requires LocksOk(c, s) && i < |s.pcs| && j < |s.pcs| && HoldsTable(s.pcs[i]) && HoldsTable(s.pcs[j])
    requires s.pcs[i].key == s.pcs[j].key
    ensures i == j
  {
    assert Sane(c, s, i) && Sane(c, s, j);
    var e := s.pcs[i].entry;
    assert e == s.pcs[j].entry;
    assert HoldsLock(s.pcs[i], e) && HoldsLock(s.pcs[j], e);
    assert s.locks[e].owner == Some(i) && s.locks[e].owner == Some(j);
  }

  lemma FreeTable(c: Config, s: State, e: nat)
    requires LocksOk(c, s) && e < |s.locks| && s.locks[e].owner.None?
    ensures Free(s, s.locks[e].key)
  {
    forall j | 0 <= j < |s.pcs| && HoldsTable(s.pcs[j]) ensures s.pcs[j].key != s.locks[e].key {
      assert Sane(c, s, j);
      assert HoldsLock(s.pcs[j], s.pcs[j].entry);
      assert s.locks[s.pcs[j].entry].owner == Some(j);
    }
  }

  lemma InitInv(c: Config, s: State)
    requires ConfigOk(c) && Init(c, s) && FewTables(c)
    ensures Inv(c, s)
  {
  }

  // ---- one step ----

  /** The stepping request keeps its future while it holds the lock, unless its entry pointer is stale. */
  lemma OwnFuture(c: Config, s: State, j: Job)
    requires ConfigOk(c) && AllSane(c, s) && j < |s.pcs| && Next(c, s, j).Some? && HoldsTable(s.pcs[j]) && !Stale(s, j)
    ensures var s' := Next(c, s, j).value;
            && s'.grants == s.grants && AllSane(c, s')
            && (HoldsTable(s'.pcs[j]) ==> s'.pcs[j].key == s.pcs[j].key && Future(c, s', j) == Future(c, s, j))
            && (!HoldsTable(s'.pcs[j]) ==>
                 s'.pcs[j] == Done(Future(c, s, j).0) && s'.tables[s.pcs[j].key] == Future(c, s, j).1)
            && (forall k | k in s.tables && k != s.pcs[j].key :: s'.tables[k] == s.tables[k])
  {
    hide Step, TakesEntry, NeedsRegistry, GetOrCreate;
    SaneKept(c, s, j);
    assert Sane(c, s, j);
    if s.pcs[j].Running? {
      StepUnfolds(s.pcs[j].pc, c.requests[j].s, SchemaOf(c, j), c.requests[j].x, s.tables[s.pcs[j].key]);
    }
  }

  lemma StepUnfolds(pc: Pc, st: Statement, schema: Schema, x: Faults, t: Table)
    ensures RunToEnd(pc, st, schema, x, t)
         == if pc.Finished? then (pc.outcome, t)
            else var r := Step(pc, st, schema, x, t); RunToEnd(r.0, st, schema, x, r.1)
  {
  }

  /** A request that holds no lock changes no table and is granted one at most. */
  lemma OutsideStep(c: Config, s: State, j: Job)
    requires ConfigOk(c) && AllSane(c, s) && j < |s.pcs| && Next(c, s, j).Some? && !HoldsTable(s.pcs[j])
    ensures var s' := Next(c, s, j).value;
            && s'.tables == s.tables
            && if s.pcs[j].WantTable? then
                 && s.pcs[j].entry < |s.locks| && s.locks[s.pcs[j].entry].owner.None?
                 && s'.pcs[j] == HasTable(s.pcs[j].key, s.pcs[j].entry) && s'.grants == s.grants + [j]
               else
                 && s'.grants == s.grants && !HoldsTable(s'.pcs[j]) && !s.pcs[j].Done?
                 && (s'.pcs[j].Done? ==> RefusedEarly(c, s', j))
  {
    hide Step;
    assert Sane(c, s, j);
  }

  lemma SerialSnoc(c: Config, order: seq<Job>, j: Job)
    requires ConfigOk(c) && AllKnown(c, order) && Known(c, j)
    ensures AllKnown(c, order + [j]) && Known(c, j) && KeyOf(c, j) in c.init
    ensures Serial(c, order + [j]) == Serial(c, order)[KeyOf(c, j) := JobRun(c, j, Serial(c, order)[KeyOf(c, j)]).1]
    ensures forall i | 0 <= i < |order| :: SerialOutcome(c, order + [j], i) == SerialOutcome(c, order, i)
    ensures SerialOutcome(c, order + [j], |order|) == JobRun(c, j, Serial(c, order)[KeyOf(c, j)]).0
  {
    hide JobRun, SerialOutcome;
    assert (order + [j])[..|order|] == order && (order + [j])[|order|] == j;
    assert KeyOf(c, j) in c.init;
    forall i | 0 <= i < |order| ensures SerialOutcome(c, order + [j], i) == SerialOutcome(c, order, i) {
      OutcomeFromPrefix(c, order, order + [j], i);
    }
    LastOutcome(c, order, j);
  }

  lemma OutcomeFromPrefix(c: Config, order: seq<Job>, longer: seq<Job>, i: nat)
    requires ConfigOk(c) && AllKnown(c, order) && AllKnown(c, longer) && i < |order| && order <= longer
    ensures SerialOutcome(c, longer, i) == SerialOutcome(c, order, i)
  {
    hide JobRun, Serial;
    assert longer[..i] == order[..i];
  }

  lemma LastOutcome(c: Config, order: seq<Job>, j: Job)
    requires ConfigOk(c) && AllKnown(c, order) && AllKnown(c, order + [j]) && Known(c, j) && KeyOf(c, j) in c.init
    ensures SerialOutcome(c, order + [j], |order|) == JobRun(c, j, Serial(c, order)[KeyOf(c, j)]).0
  {
  }

  /** Other requests are not affected by a step on another table or on none. */
  lemma OtherFuture(c: Config, s: State, s': State, j: Job, i: Job)
    requires ConfigOk(c) && AllSane(c, s) && AllSane(c, s') && i < |s.pcs| == |s'.pcs| && i != j
    requires s'.pcs[i] == s.pcs[i]
    requires HoldsTable(s.pcs[i]) ==> SameTable(s, s', s.pcs[i].key)
    ensures HoldsTable(s.pcs[i]) ==> Future(c, s', i) == Future(c, s, i)
    ensures Granted(s.pcs[i]) ==> Answer(c, s', i) == Answer(c, s, i)
  {
  }

  /** What is known of the state after a step that is not a grant. */
  ghost predicate Quiet(c: Config, s: State, s': State, j: Job) {
    && ConfigOk(c) && AllSane(c, s) && AllSane(c, s') && j < |s.pcs| == |s'.pcs| && s'.grants == s.grants
    && (forall i | 0 <= i < |s.pcs| && i != j :: s'.pcs[i] == s.pcs[i])
    && (forall i | 0 <= i < |s.pcs| && i != j && HoldsTable(s.pcs[i]) :: SameTable(s, s', s.pcs[i].key))
  }

  ghost predicate SameTable(s: State, s': State, k: string) {
    k in s.tables && k in s'.tables && s'.tables[k] == s.tables[k]
  }

  lemma QuietOrder(c: Config, s: State, s': State, j: Job)
    requires Quiet(c, s, s', j) && OrderOk(c, s)
    requires j in s.grants ==> Granted(s'.pcs[j])
    requires HoldsTable(s'.pcs[j]) ==> j in s.grants
    requires s'.pcs[j].Done? && j !in s.grants ==> RefusedEarly(c, s', j)
    ensures OrderOk(c, s')
  {
  }

  lemma QuietAnswers(c: Config, s: State, s': State, j: Job)
    requires Quiet(c, s, s', j) && OrderOk(c, s) && OrderOk(c, s') && AnswersSerial(c, s)
    requires j in s.grants ==> Answer(c, s', j) == Answer(c, s, j)
    ensures AnswersSerial(c, s')
  {
    hide Answer, SerialOutcome, Sane;
    forall i | 0 <= i < |s.grants| ensures Answer(c, s', s.grants[i]) == SerialOutcome(c, s.grants, i) {
      if s.grants[i] != j {
        OtherFuture(c, s, s', j, s.grants[i]);
      }
    }
  }

  lemma KeyKnown(c: Config, s: State, i: Job)
    requires ConfigOk(c) && AllSane(c, s) && i < |s.pcs| && HoldsTable(s.pcs[i])
    ensures s.pcs[i].key in s.tables && Known(c, i) && s.pcs[i].key == KeyOf(c, i)
  {
    assert Sane(c, s, i);
  }

  /** A step of a request that holds its table lock. */
  ghost predicate InsideStep(c: Config, s: State, s': State, j: Job) {
    && Quiet(c, s, s', j) && HoldsTable(s.pcs[j]) && s.pcs[j].key in s.tables && s.pcs[j].key in s'.tables
    && (forall k | k in s.tables && k != s.pcs[j].key :: SameTable(s, s', k))
    && if HoldsTable(s'.pcs[j]) then s'.pcs[j].key == s.pcs[j].key && Future(c, s', j) == Future(c, s, j)
       else s'.pcs[j] == Done(Future(c, s, j).0) && s'.tables[s.pcs[j].key] == Future(c, s, j).1
  }

  lemma InsideSteps(c: Config, s: State, j: Job)
    requires ConfigOk(c) && LocksOk(c, s) && j < |s.pcs| && Next(c, s, j).Some? && HoldsTable(s.pcs[j]) && !Stale(s, j)
    ensures LocksOk(c, Next(c, s, j).value) && InsideStep(c, s, Next(c, s, j).value, j)
  {
    LocksKept(c, s, j);
    OwnFuture(c, s, j);
    StepMutexEffect(c, s, j);
    KeyKnown(c, s, j);
    hide Next, Future, Sane;
    var s' := Next(c, s, j).value;
    forall i | 0 <= i < |s.pcs| && i != j && HoldsTable(s.pcs[i]) ensures SameTable(s, s', s.pcs[i].key) {
      if s.pcs[i].key == s.pcs[j].key {
        MutualExclusion(c, s, i, j);
      }
      KeyKnown(c, s, i);
    }
  }

  lemma InsideKeepsOrder(c: Config, s: State, s': State, j: Job)
    requires InsideStep(c, s, s', j) && OrderOk(c, s) && AnswersSerial(c, s)
    ensures OrderOk(c, s') && AnswersSerial(c, s')
  {
    hide Future, Sane, SerialOutcome;
    QuietOrder(c, s, s', j);
    QuietAnswers(c, s, s', j);
  }

  lemma InsideKeepsTables(c: Config, s: State, s': State, j: Job)
    requires InsideStep(c, s, s', j) && AllKnown(c, s.grants) && TablesSerial(c, s)
    ensures TablesSerial(c, s')
  {
    hide Future, Sane, Serial;
    forall i | 0 <= i < |s'.pcs| && HoldsTable(s'.pcs[i])
      ensures Future(c, s', i).1 == Serial(c, s'.grants)[s'.pcs[i].key]
    {
      if i != j {
        OtherFuture(c, s, s', j, i);
      }
    }
    forall k | k in s'.tables && Free(s', k) ensures s'.tables[k] == Serial(c, s'.grants)[k] {
      if k != s.pcs[j].key {
        StillFree(s, s', j, k);
      }
    }
  }

  lemma StillFree(s: State, s': State, j: Job, k: string)
    requires j < |s.pcs| == |s'.pcs| && (forall i | 0 <= i < |s.pcs| && i != j :: s'.pcs[i] == s.pcs[i])
    requires Free(s', k) && (HoldsTable(s.pcs[j]) ==> s.pcs[j].key != k)
    ensures Free(s, k)
  {
  }

  lemma OutsideKeeps(c: Config, s: State, s': State, j: Job)
    requires Quiet(c, s, s', j) && s'.tables == s.tables && !Granted(s.pcs[j]) && !HoldsTable(s'.pcs[j])
    requires s'.pcs[j].Done? ==> RefusedEarly(c, s', j)
    requires OrderOk(c, s) && TablesSerial(c, s) && AnswersSerial(c, s)
    ensures OrderOk(c, s') && TablesSerial(c, s') && AnswersSerial(c, s')
  {
    hide Future, Sane, Serial, SerialOutcome;
    QuietOrder(c, s, s', j);
    QuietAnswers(c, s, s', j);
    forall i | 0 <= i < |s'.pcs| && HoldsTable(s'.pcs[i])
      ensures Future(c, s', i).1 == Serial(c, s'.grants)[s'.pcs[i].key]
    {
      OtherFuture(c, s, s', j, i);
    }
    forall k | k in s'.tables && Free(s', k) ensures s'.tables[k] == Serial(c, s'.grants)[k] {
      StillFree(s, s', j, k);
    }
  }

  /** Being granted a free table's lock makes the request the last of the serial order. */
  ghost predicate Grant(c: Config, s: State, s': State, j: Job, k: string) {
    && ConfigOk(c) && AllSane(c, s) && AllSane(c, s') && j < |s.pcs| == |s'.pcs| && Known(c, j)
    && KeyOf(c, j) == k && k in s.tables
    && (forall i | 0 <= i < |s.pcs| && i != j :: s'.pcs[i] == s.pcs[i])
    && s'.tables == s.tables && s'.grants == s.grants + [j] && !Granted(s.pcs[j]) && Free(s, k)
    && s'.pcs[j].HasTable? && s'.pcs[j].key == k
  }

  lemma GrantedFuture(c: Config, s: State, s': State, j: Job, k: string)
    requires Grant(c, s, s', j, k) && OrderOk(c, s) && TablesSerial(c, s)
    ensures Future(c, s', j) == JobRun(c, j, Serial(c, s.grants)[k]) && Answer(c, s', j) == Future(c, s', j).0
    ensures j !in s.grants
  {
    hide JobRun, Serial, Sane;
    assert s.tables[k] == Serial(c, s.grants)[k];
  }

  lemma AllKeysKnown(c: Config, s: State)
    requires ConfigOk(c) && AllSane(c, s)
    ensures forall i | 0 <= i < |s.pcs| && HoldsTable(s.pcs[i]) :: s.pcs[i].key in s.tables
  {
    forall i | 0 <= i < |s.pcs| && HoldsTable(s.pcs[i]) ensures s.pcs[i].key in s.tables {
      KeyKnown(c, s, i);
    }
  }

  lemma GrantKeepsTables(c: Config, s: State, s': State, j: Job, k: string)
    requires Grant(c, s, s', j, k) && OrderOk(c, s) && TablesSerial(c, s)
    ensures AllKnown(c, s'.grants) && TablesSerial(c, s')
  {
    SerialSnoc(c, s.grants, j);
    GrantedFuture(c, s, s', j, k);
    AllKeysKnown(c, s');
    assert KeyOf(c, j) == k;
    hide Sane, Serial, JobRun, Future, Answer, OrderOk, SerialOutcome, Granted, KeyOf;
    forall i | 0 <= i < |s'.pcs| && HoldsTable(s'.pcs[i])
      ensures Future(c, s', i).1 == Serial(c, s'.grants)[s'.pcs[i].key]
    {
      if i != j {
        OtherFuture(c, s, s', j, i);
      }
    }
    forall x | x in s'.tables && Free(s', x) ensures s'.tables[x] == Serial(c, s'.grants)[x] {
      if x != k {
        StillFree(s, s', j, x);
      }
    }
  }

  lemma GrantKeepsOrder(c: Config, s: State, s': State, j: Job, k: string)
    requires Grant(c, s, s', j, k) && OrderOk(c, s) && TablesSerial(c, s)
    ensures OrderOk(c, s')
  {
    hide Sane, Serial, JobRun, Future, TablesSerial, Free, KeyOf;
    forall i, x | 0 <= i < x < |s'.grants| ensures s'.grants[i] != s'.grants[x] {
      assert x == |s.grants| ==> s.grants[i] != j;
    }
  }

  lemma GrantKeepsAnswers(c: Config, s: State, s': State, j: Job, k: string)
    requires Grant(c, s, s', j, k) && OrderOk(c, s) && OrderOk(c, s') && TablesSerial(c, s) && AnswersSerial(c, s)
    ensures AnswersSerial(c, s')
  {
    hide Sane, Serial, JobRun, SerialOutcome, Future, Answer, TablesSerial, Free;
    SerialSnoc(c, s.grants, j);
    GrantedFuture(c, s, s', j, k);
    AllKeysKnown(c, s);
    forall i | 0 <= i < |s'.grants| ensures Answer(c, s', s'.grants[i]) == SerialOutcome(c, s'.grants, i) {
      if i < |s.grants| {
        assert s'.grants[i] == s.grants[i];
        OtherFuture(c, s, s', j, s.grants[i]);
      }
    }
  }

  lemma GrantSteps(c: Config, s: State, j: Job)
    requires ConfigOk(c) && LocksOk(c, s) && j < |s.pcs| && Next(c, s, j).Some? && s.pcs[j].WantTable?
    ensures Grant(c, s, Next(c, s, j).value, j, s.pcs[j].key)
  {
    OutsideStep(c, s, j);
    SaneKept(c, s, j);
    StepMutexEffect(c, s, j);
    FreeTable(c, s, s.pcs[j].entry);
    hide Next, Free;
    assert Sane(c, s, j);
  }

  lemma OutsideSteps(c: Config, s: State, j: Job)
    requires ConfigOk(c) && LocksOk(c, s) && j < |s.pcs| && Next(c, s, j).Some? && !HoldsTable(s.pcs[j])
    requires !s.pcs[j].WantTable?
    ensures var s' := Next(c, s, j).value;
            && Quiet(c, s, s', j) && s'.tables == s.tables && !Granted(s.pcs[j]) && !HoldsTable(s'.pcs[j])
            && (s'.pcs[j].Done? ==> RefusedEarly(c, s', j))
  {
    OutsideStep(c, s, j);
    SaneKept(c, s, j);
    StepMutexEffect(c, s, j);
    hide Next, Sane;
    forall i | 0 <= i < |s.pcs| && i != j && HoldsTable(s.pcs[i]) ensures s.pcs[i].key in s.tables {
      KeyKnown(c, s, i);
    }
  }

  /** Every step of every request keeps the serial order. */
  lemma InvKept(c: Config, s: State, j: Job)
    requires Inv(c, s) && j < |s.pcs| && Next(c, s, j).Some?
    ensures Inv(c, Next(c, s, j).value)
  {
    hide Next, TablesSerial, AnswersSerial, OrderOk, Quiet, Grant, InsideStep, SlotsOk, FewTables, Stale;
    var s' := Next(c, s, j).value;
    LocksKept(c, s, j);
    SlotsKept(c, s, j);
    NotStale(c, s, j);
    GrantsKnown(c, s);
    if HoldsTable(s.pcs[j]) {
      InsideSteps(c, s, j);
      InsideKeepsOrder(c, s, s', j);
      InsideKeepsTables(c, s, s', j);
    } else if s.pcs[j].WantTable? {
      GrantSteps(c, s, j);
      GrantKeepsTables(c, s, s', j, s.pcs[j].key);
      GrantKeepsOrder(c, s, s', j, s.pcs[j].key);
      GrantKeepsAnswers(c, s, s', j, s.pcs[j].key);
    } else {
      OutsideSteps(c, s, j);
      OutsideKeeps(c, s, s', j);
    }
  }

  lemma GrantsKnown(c: Config, s: State)
    requires OrderOk(c, s)
    ensures AllKnown(c, s.grants)
  {
  }
}
