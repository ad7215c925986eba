/** The engine never deadlocks, always finishes, and leaves no lock behind. */
module EngineProgress {
  import opened Wrappers
  import opened ExecSpec
  import opened Engine
  import opened EngineRegistry
  import opened EngineRuns

  /** A request that waits for a lock holds none, except that the registry may be awaited under a table lock. */
  lemma WaitersHoldNothing(c: Config, s: State, j: Job)
    requires LocksOk(c, s) && j < |s.pcs| && (s.pcs[j].WantManager? || s.pcs[j].WantTable?)
    ensures s.manager != Some(j) && s.registry != Some(j)
    ensures forall e | 0 <= e < |s.locks| :: s.locks[e].owner != Some(j)
  {
  }

  lemma HolderSteps(c: Config, s: State, j: Job)
    requires ConfigOk(c) && AllSane(c, s) && j < |s.pcs| && (InManager(s.pcs[j]) || InRegistry(s.pcs[j]))
    ensures Next(c, s, j).Some?
  {
  }

  /** Some request can step: the owner of the registry, the owner of a table, the owner of the manager, or anyone. */
  lemma TableHolderSteps(c: Config, s: State, j: Job)
    requires ConfigOk(c) && LocksOk(c, s) && j < |s.pcs| && HoldsTable(s.pcs[j])
    ensures Next(c, s, j).Some? ||
              (s.registry.Some? && s.registry.value < |s.pcs| && Next(c, s, s.registry.value).Some?)
  {
  }

  ghost predicate CanStep(c: Config, s: State)
    requires ConfigOk(c) && AllSane(c, s)
  {
    exists j :: 0 <= j < |s.pcs| && Next(c, s, j).Some?
  }

  /** No deadlock: while a request is unfinished some request can step. */
  lemma Progress(c: Config, s: State, j: Job)
    requires ConfigOk(c) && LocksOk(c, s) && j < |s.pcs| && !s.pcs[j].Done?
    ensures CanStep(c, s)
  {
    assert Sane(c, s, j);
    if s.pcs[j].WantManager? && s.manager.Some? {
      HolderSteps(c, s, s.manager.value);
    } else if s.pcs[j].WantTable? && s.locks[s.pcs[j].entry].owner.Some? {
      var e := s.pcs[j].entry;
      assert HoldsLock(s.pcs[s.locks[e].owner.value], e);
      TableHolderSteps(c, s, s.locks[e].owner.value);
    } else if HoldsTable(s.pcs[j]) {
      TableHolderSteps(c, s, j);
    } else {
      hide Step;
      assert Next(c, s, j).Some?;
    }
  }

  /** When all requests are finished every mutex is free. */
  lemma NothingHeldAtRest(c: Config, s: State)
    requires LocksOk(c, s) && AllDone(s)
    ensures s.manager.None? && s.registry.None? && forall e | 0 <= e < |s.locks| :: s.locks[e].owner.None?
  {
  }

  // ---- termination ----

  function RegistryWork(r: Registry): nat {
    match r case Idle => 3 case Waiting => 2 case Inside => 1 case Passed(_) => 0
  }

  const JOB_WORK := 31

  /** An upper bound on the steps a request still takes. */
  function JobWork(pc: JobPc): nat {
    match pc
    case Start => JOB_WORK
    case WantManager(_) => 30
    case HasManager(_) => 29
    case LeaveManager(_, _) => 28
    case WantTable(_, _) => 27
    case HasTable(_, _) => 26
    case Running(_, _, p, r) => 2 + 4 * StepsLeft(p) + RegistryWork(r)
    case Releasing(_, _, _) => 1
    case Done(_) => 0
  }

  function Work(pcs: seq<JobPc>): nat {
    if pcs == [] then 0 else JobWork(pcs[0]) + Work(pcs[1..])
  }

  lemma {:induction false} WorkUpdate(pcs: seq<JobPc>, j: nat, pc: JobPc)
    requires j < |pcs|
    ensures Work(pcs[j := pc]) == Work(pcs) - JobWork(pcs[j]) + JobWork(pc)
  {
    if j > 0 {
      assert pcs[j := pc][1..] == pcs[1..][j - 1 := pc];
      WorkUpdate(pcs[1..], j - 1, pc);
    } else {
      assert pcs[j := pc][1..] == pcs[1..];
    }
  }

  lemma JobAdvances(c: Config, s: State, j: Job)
    requires ConfigOk(c) && AllSane(c, s) && j < |s.pcs| && Next(c, s, j).Some?
    ensures var s' := Next(c, s, j).value; s'.pcs == s.pcs[j := s'.pcs[j]] && JobWork(s'.pcs[j]) < JobWork(s.pcs[j])
  {
    hide Step, Find, TakesEntry, NeedsRegistry, GetOrCreate, Stale;
    assert Sane(c, s, j);
    var p := s.pcs[j];
    if p.Running? && !p.pc.Finished? {
      StepAdvances(p.pc, c.requests[j].s, SchemaOf(c, j), c.requests[j].x, s.tables[p.key]);
    }
  }

  lemma {:induction false} LocksAlways(c: Config, s: State, schedule: seq<Job>)
    requires ConfigOk(c) && LocksOk(c, s)
    ensures LocksOk(c, RunSchedule(c, s, schedule))
    decreases |schedule|
  {
    hide Next, ManagerOwned, RegistryOwned, TablesOwned, OneLockPerKey;
    if schedule != [] {
      var j := schedule[0];
      if j < |s.pcs| && Next(c, s, j).Some? {
        LocksKept(c, s, j);
      }
      LocksAlways(c, Pick(c, s, j), schedule[1..]);
    }
  }

  /** Every step uses up work, so a schedule of effective steps is at most as long as the work at its start. */
  lemma {:induction false} StepsBounded(c: Config, s: State, schedule: seq<Job>)
    requires ConfigOk(c) && LocksOk(c, s) && Effective(c, s, schedule)
    ensures |schedule| + Work(RunSchedule(c, s, schedule).pcs) <= Work(s.pcs)
    decreases |schedule|
  {
    if schedule != [] {
      var j := schedule[0];
      LocksKept(c, s, j);
      JobAdvances(c, s, j);
      var s' := Next(c, s, j).value;
      WorkUpdate(s.pcs, j, s'.pcs[j]);
      hide Next, LocksOk, JobWork;
      StepsBounded(c, s', schedule[1..]);
    }
  }

  /** Each pick of the schedule is a request that can step. */
  ghost predicate Effective(c: Config, s: State, schedule: seq<Job>)
    decreases |schedule|
  {
    schedule != [] ==>
      && ConfigOk(c) && AllSane(c, s) && schedule[0] < |s.pcs| && Next(c, s, schedule[0]).Some?
      && Effective(c, Pick(c, s, schedule[0]), schedule[1..])
  }

  /** From every state with sound locks some schedule finishes every request. */
  lemma {:induction false} CanFinish(c: Config, s: State) returns (schedule: seq<Job>, s': State)
    requires ConfigOk(c) && LocksOk(c, s)
    ensures RunSchedule(c, s, schedule) == s' && LocksOk(c, s') && AllDone(s')
    decreases Work(s.pcs)
  {
    if AllDone(s) {
      schedule, s' := [], s;
    } else {
      var j :| 0 <= j < |s.pcs| && !s.pcs[j].Done?;
      Progress(c, s, j);
      var i :| 0 <= i < |s.pcs| && Next(c, s, i).Some?;
      var t := Next(c, s, i).value;
      LocksKept(c, s, i);
      JobAdvances(c, s, i);
      WorkUpdate(s.pcs, i, t.pcs[i]);
      hide Next, LocksOk, JobWork, AllDone;
      var rest;
      rest, s' := CanFinish(c, t);
      schedule := [i] + rest;
      RunFrom(c, s, i, rest);
    }
  }

  lemma RunFrom(c: Config, s: State, j: Job, rest: seq<Job>)
    requires ConfigOk(c) && LocksOk(c, s) && j < |s.pcs| && Next(c, s, j).Some?
    ensures RunSchedule(c, s, [j] + rest) == RunSchedule(c, Next(c, s, j).value, rest)
  {
    hide Next;
    assert ([j] + rest)[1..] == rest;
  }

  /** A run that cannot be extended has finished every request. */
  lemma MaximalRunsFinish(c: Config, s: State, schedule: seq<Job>)
    requires ConfigOk(c) && Init(c, s)
    ensures var s' := RunSchedule(c, s, schedule); AllSane(c, s') && (AllDone(s') || CanStep(c, s'))
    ensures Effective(c, s, schedule) ==> |schedule| <= Work(s.pcs)
  {
    InitOk(c, s);
    LocksAlways(c, s, schedule);
    var s' := RunSchedule(c, s, schedule);
    if Effective(c, s, schedule) {
      StepsBounded(c, s, schedule);
    }
    hide RunSchedule, Next;
    if !AllDone(s') {
      var j :| 0 <= j < |s'.pcs| && !s'.pcs[j].Done?;
      Progress(c, s', j);
    }
  }
}
