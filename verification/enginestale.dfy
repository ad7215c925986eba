/**
 * More than four tables: a schedule in which the registry array moves while a request holds a pointer into it, and what
 * that costs. With `EngineRuns` this gives the exact condition for serial equivalence.
 */
module EngineStale {
  import opened TableFile
  import opened ExecSpec
  import opened ExecFacts
  import opened Engine
  import opened EngineRegistry
  import opened EngineSerial
  import opened EngineRuns
  import opened EngineProgress
  import opened EngineAlone
  import InsertRows

  // ---- the order of grants ----

  lemma {:induction false} GrantsGrow(c: Config, s: State, schedule: seq<Job>)
    requires ConfigOk(c) && LocksOk(c, s) && AllKnown(c, s.grants)
    ensures s.grants <= RunSchedule(c, s, schedule).grants && AllKnown(c, RunSchedule(c, s, schedule).grants)
    ensures LocksOk(c, RunSchedule(c, s, schedule))
    decreases |schedule|
  {
    hide ManagerOwned, RegistryOwned, TablesOwned, OneLockPerKey, Next;
    if schedule != [] {
      var j := schedule[0];
      if j < |s.pcs| && Next(c, s, j).Some? {
        LocksKept(c, s, j);
        GrantStep(c, s, j);
      }
      GrantsGrow(c, Pick(c, s, j), schedule[1..]);
    }
  }

  lemma GrantStep(c: Config, s: State, j: Job)
    requires ConfigOk(c) && AllSane(c, s) && AllKnown(c, s.grants) && j < |s.pcs| && Next(c, s, j).Some?
    ensures s.grants <= Next(c, s, j).value.grants && AllKnown(c, Next(c, s, j).value.grants)
  {
    hide RunningStep, Find;
    assert Sane(c, s, j);
    if s.pcs[j].Running? {
      RunningSteps(c, s, j);
    }
  }

  // ---- the array ----

  /** The array holds this one entry at most. */
  ghost predicate Only(r: Slots, name: string) {
    r == Slots([], 0, 0) || r == Slots([name], 4, 1)
  }

  /** The first allocation has four slots, every later one more. */
  ghost predicate Shaped(r: Slots) {
    && |r.names| <= r.capacity
    && (r.generation == 0 ==> r.capacity == 0) && (r.generation == 1 ==> r.capacity == 4)
    && (r.generation > 1 ==> r.capacity > 4)
  }

  lemma ShapeKept(r: Slots, name: string)
    requires Shaped(r)
    ensures Shaped(GetOrCreate(r, name)) && r.names <= GetOrCreate(r, name).names
    ensures Only(r, name) ==> GetOrCreate(r, name) == Slots([name], 4, 1)
  {
  }

  /** A sequence that has all elements of a set is at least as long. */
  lemma {:induction false} CoverSize(names: seq<string>, all: set<string>)
    requires forall n | n in all :: n in names
    ensures |all| <= |names|
  {
    if names == [] {
      assert all == {};
    } else {
      CoverSize(names[1..], all - {names[0]});
    }
  }

  // ---- the victim takes its pointer ----

  /** Request `v` holds a pointer into the first array; nobody else is under way. */
  ghost predicate Parked(c: Config, s: State, v: Job) {
    && ConfigOk(c) && LocksOk(c, s) && Known(c, v) && v < |s.pcs| && Shaped(s.slots)
    && s.pcs[v].Running? && s.pcs[v].key == KeyOf(c, v) && s.pcs[v].pc == Begin && s.pcs[v].registry == Passed(1)
    && (forall i | 0 <= i < |s.pcs| && i != v :: s.pcs[i].Start? || s.pcs[i].Done?)
  }

  /** Nobody is under way. */
  ghost predicate Resting(c: Config, s: State) {
    && ConfigOk(c) && LocksOk(c, s) && forall i | 0 <= i < |s.pcs| :: s.pcs[i].Start? || s.pcs[i].Done?
  }

  lemma Park(c: Config, s: State, v: Job) returns (schedule: seq<Job>, s': State)
    requires Resting(c, s) && Known(c, v) && v < |s.pcs| && Approaching(c, s, v) && Only(s.slots, KeyOf(c, v))
    ensures RunSchedule(c, s, schedule) == s' && Parked(c, s', v) && KeyOf(c, v) in s'.slots.names
    ensures s'.pcs == s.pcs[v := s'.pcs[v]] && s'.tables == s.tables && s'.grants == s.grants + [v]
  {
    hide LocksOk, Approaching, RunSchedule, HasLock, GetsLock, GetOrCreate;
    assert Alone(c, s, v);
    assert !HoldsTable(s.pcs[v]);
    schedule, s' := RunToPointer(c, s, v);
    ShapeKept(s.slots, KeyOf(c, v));
  }

  // ---- the requests of the victim's own table come first ----

  /** Of the first `n` requests those for the victim's table are done, except its own; no other has started. */
  ghost predicate Before(c: Config, s: State, v: Job, n: nat) {
    && Resting(c, s) && Known(c, v) && v < |s.pcs| && n <= |s.pcs| && Only(s.slots, KeyOf(c, v))
    && forall j | 0 <= j < |s.pcs| ::
         if j < n && j != v && Known(c, j) && KeyOf(c, j) == KeyOf(c, v) then
           s.pcs[j].Done? && (c.requests[j].lockMemory ==> HasLock(s, KeyOf(c, v)))
         else s.pcs[j].Start?
  }

  lemma {:induction false} RunOthers(c: Config, s: State, v: Job, n: nat) returns (schedule: seq<Job>, s': State)
    requires ConfigOk(c) && Init(c, s) && Known(c, v) && n <= |c.requests|
    ensures RunSchedule(c, s, schedule) == s' && Before(c, s', v, n)
  {
    if n == 0 {
      schedule, s' := [], s;
    } else {
      hide RunSchedule, Before, Init;
      var first, more, t;
      first, t := RunOthers(c, s, v, n - 1);
      more, s' := RunOther(c, t, v, n - 1);
      schedule := first + more;
      RunConcat(c, s, first, more);
    }
  }

  lemma RunOther(c: Config, s: State, v: Job, j: Job) returns (schedule: seq<Job>, s': State)
    requires Before(c, s, v, j) && j < |s.pcs|
    ensures RunSchedule(c, s, schedule) == s' && Before(c, s', v, j + 1)
  {
    hide LocksOk, HasLock, OnTheWay;
    if j != v && Known(c, j) && KeyOf(c, j) == KeyOf(c, v) {
      hide RunSchedule, GetOrCreate;
      assert Alone(c, s, j);
      schedule, s' := RunAlone(c, s, j);
      ShapeKept(s.slots, KeyOf(c, v));
    } else {
      schedule, s' := [], s;
    }
  }

  lemma VictimApproaches(c: Config, s: State, v: Job)
    requires Before(c, s, v, |s.pcs|) && |s.pcs| == |c.requests| && Reaches(c, v) && Lockable(c, KeyOf(c, v))
    ensures Approaching(c, s, v)
  {
    hide UsesIndex, HasLock, LocksOk;
    var i: nat :| i < |c.requests| && Known(c, i) && KeyOf(c, i) == KeyOf(c, v) && c.requests[i].lockMemory;
    assert s.pcs[v].Start?;
    assert i != v ==> HasLock(s, KeyOf(c, v));
  }

  // ---- the other tables fill the array ----

  /** The requests for these tables have not started. */
  ghost predicate Untouched(c: Config, s: State, names: set<string>) {
    forall j | 0 <= j < |s.pcs| && Known(c, j) && KeyOf(c, j) in names :: s.pcs[j].Start?
  }

  /** What running some requests for these tables leaves of the rest. */
  ghost predicate Filled(c: Config, s: State, s': State, names: set<string>) {
    && |s'.pcs| == |s.pcs| && s.slots.names <= s'.slots.names
    && forall j | 0 <= j < |s.pcs| && !(Known(c, j) && KeyOf(c, j) in names) :: s'.pcs[j] == s.pcs[j]
  }

  lemma ParkedAlone(c: Config, s: State, v: Job, j: Job) returns (schedule: seq<Job>, s': State)
    requires Parked(c, s, v) && Known(c, j) && j < |s.pcs| && KeyOf(c, j) != KeyOf(c, v)
    ensures RunSchedule(c, s, schedule) == s' && Parked(c, s', v) && Filled(c, s, s', {KeyOf(c, j)})
    ensures s'.pcs == s.pcs[j := s'.pcs[j]]
    ensures GetsLock(c, s, j) ==> HasLock(s', KeyOf(c, j))
    ensures OnTheWay(c, s, j) ==> KeyOf(c, j) in s'.slots.names
  {
    hide LocksOk, HasLock, OnTheWay, GetsLock, RunSchedule, GetOrCreate;
    assert Alone(c, s, j);
    schedule, s' := RunAlone(c, s, j);
    ShapeKept(s.slots, KeyOf(c, j));
  }

  /** One request that can create the lock of a table, and one that reaches its index. */
  lemma Requesters(c: Config, name: string) returns (i: Job, j: Job)
    requires name in Indexed(c)
    ensures i < |c.requests| && Known(c, i) && KeyOf(c, i) == name && c.requests[i].lockMemory
    ensures j < |c.requests| && Reaches(c, j) && KeyOf(c, j) == name
  {
    hide UsesIndex;
    var b: nat :| b < |c.requests| && Reaches(c, b) && Lockable(c, KeyOf(c, b)) && KeyOf(c, b) == name;
    var a: nat :| a < |c.requests| && Known(c, a) && KeyOf(c, a) == name && c.requests[a].lockMemory;
    i, j := a, b;
  }

  /** Some requests for a table bring its entry into the array. */
  lemma FillOne(c: Config, s: State, v: Job, name: string) returns (schedule: seq<Job>, s': State)
    requires Parked(c, s, v) && name in Indexed(c) && name != KeyOf(c, v) && Untouched(c, s, {name})
    ensures RunSchedule(c, s, schedule) == s' && Parked(c, s', v) && Filled(c, s, s', {name})
    ensures name in s'.slots.names
  {
    var i, j := Requesters(c, name);
    assert |s.pcs| == |c.requests|;
    hide LocksOk, HasLock, UsesIndex, RunSchedule, Indexed, KeyOf;
    assert s.pcs[i].Start? && s.pcs[j].Start? && GetsLock(c, s, i);
    schedule, s' := ParkedAlone(c, s, v, i);
    if i != j {
      var t := s';
      assert t.pcs[j].Start? && GetsLock(c, t, j);
      assert OnTheWay(c, t, j);
      var more;
      more, s' := ParkedAlone(c, t, v, j);
      RunConcat(c, s, schedule, more);
      schedule := schedule + more;
    }
  }

  lemma {:induction false} FillAll(c: Config, s: State, v: Job, names: set<string>)
    returns (schedule: seq<Job>, s': State)
    requires Parked(c, s, v) && names <= Indexed(c) && KeyOf(c, v) !in names && Untouched(c, s, names)
    ensures RunSchedule(c, s, schedule) == s' && Parked(c, s', v) && Filled(c, s, s', names)
    ensures forall n | n in names :: n in s'.slots.names
    decreases |names|
  {
    if names == {} {
      schedule, s' := [], s;
    } else {
      hide Parked, Indexed, RunSchedule, KeyOf, Untouched, Filled, Known;
      var name :| name in names;
      assert Known(c, v) by {
        ParkedKnown(c, s, v);
      }
      FewerUntouched(c, s, names, {name});
      var first, more, t;
      first, t := FillOne(c, s, v, name);
      FilledRest(c, s, t, names, name);
      more, s' := FillAll(c, t, v, names - {name});
      FilledAll(c, s, t, s', names, name);
      schedule := first + more;
      RunConcat(c, s, first, more);
    }
  }

  lemma FewerUntouched(c: Config, s: State, names: set<string>, fewer: set<string>)
    requires Untouched(c, s, names) && fewer <= names
    ensures Untouched(c, s, fewer)
  {
  }

  lemma FilledRest(c: Config, s: State, t: State, names: set<string>, name: string)
    requires Untouched(c, s, names) && Filled(c, s, t, {name})
    ensures Untouched(c, t, names - {name})
  {
  }

  lemma FilledAll(c: Config, s: State, t: State, s': State, names: set<string>, name: string)
    requires name in names && Filled(c, s, t, {name}) && Filled(c, t, s', names - {name})
    ensures Filled(c, s, s', names)
    ensures name in t.slots.names ==> name in s'.slots.names
  {
  }

  lemma ParkedKnown(c: Config, s: State, v: Job)
    requires Parked(c, s, v)
    ensures Known(c, v)
  {
  }

  /** With a fifth table the victim's pointer goes stale. */
  lemma GoStale(c: Config, s: State, v: Job) returns (schedule: seq<Job>, s': State)
    requires Parked(c, s, v) && !FewTables(c) && KeyOf(c, v) in s.slots.names
    requires Untouched(c, s, Indexed(c) - {KeyOf(c, v)})
    ensures RunSchedule(c, s, schedule) == s' && Parked(c, s', v) && Stale(s', v)
    ensures Filled(c, s, s', Indexed(c) - {KeyOf(c, v)})
  {
    hide Indexed, LocksOk, RunSchedule, Untouched;
    schedule, s' := FillAll(c, s, v, Indexed(c) - {KeyOf(c, v)});
    CoverSize(s'.slots.names, Indexed(c));
  }

  // ---- and fails ----

  /** The request has failed, or is about to say so. */
  ghost predicate Lost(s: State, v: Job) {
    && v < |s.pcs|
    && match s.pcs[v]
       case Running(_, _, pc, _) => pc == Finished(Failed)
       case Releasing(_, _, o) => o == Failed
       case Done(o) => o == Failed
       case _ => false
  }

  /** Its table is left with a wrecked index, and nobody else will touch it. */
  ghost predicate Ruined(c: Config, s: State, v: Job) {
    && Lost(s, v) && Known(c, v) && KeyOf(c, v) in s.tables && s.tables[KeyOf(c, v)].entry == WRECKED
    && forall j | 0 <= j < |s.pcs| && j != v && Known(c, j) && KeyOf(c, j) == KeyOf(c, v) :: s.pcs[j].Done?
  }

  lemma LostKept(c: Config, s: State, v: Job, j: Job)
    requires ConfigOk(c) && AllSane(c, s) && j < |s.pcs| && Next(c, s, j).Some? && Lost(s, v)
    ensures Lost(Next(c, s, j).value, v)
  {
    if j == v {
      hide Step, GetOrCreate, TakesEntry, NeedsRegistry, Find, Stale, ConfigOk;
      assert Sane(c, s, j);
    } else {
      StepMutexEffect(c, s, j);
      hide Next, Sane, Moved, ConfigOk;
    }
  }

  lemma RuinedKept(c: Config, s: State, v: Job, j: Job)
    requires ConfigOk(c) && AllSane(c, s) && j < |s.pcs| && Next(c, s, j).Some? && Ruined(c, s, v)
    ensures Ruined(c, Next(c, s, j).value, v)
  {
    LostKept(c, s, v, j);
    assert Sane(c, s, j) && Sane(c, s, v);
    if s.pcs[j].Running? && j != v {
      hide RunningStep, Lost;
      RunningSteps(c, s, j);
      hide Next;
    } else {
      hide RunningStep, Find, Lost;
    }
  }

  lemma {:induction false} LostAlways(c: Config, s: State, v: Job, schedule: seq<Job>)
    requires ConfigOk(c) && LocksOk(c, s) && Lost(s, v)
    ensures Lost(RunSchedule(c, s, schedule), v)
    ensures Ruined(c, s, v) ==> Ruined(c, RunSchedule(c, s, schedule), v)
    decreases |schedule|
  {
    hide ManagerOwned, RegistryOwned, TablesOwned, OneLockPerKey, Next, Lost, Ruined;
    if schedule != [] {
      var j := schedule[0];
      if j < |s.pcs| && Next(c, s, j).Some? {
        LocksKept(c, s, j);
        LostKept(c, s, v, j);
        if Ruined(c, s, v) {
          RuinedKept(c, s, v, j);
        }
      }
      LostAlways(c, Pick(c, s, j), v, schedule[1..]);
    }
  }

  /** Using the stale pointer. */
  lemma StaleStep(c: Config, s: State, v: Job) returns (s': State)
    requires Parked(c, s, v) && Stale(s, v)
    ensures RunSchedule(c, s, [v]) == s' && LocksOk(c, s') && Lost(s', v) && s'.grants == s.grants
    ensures s'.pcs == s.pcs[v := s'.pcs[v]] && KeyOf(c, v) in s'.tables && s'.tables[KeyOf(c, v)].entry == WRECKED
  {
    hide Step, GetOrCreate, TakesEntry, ManagerOwned, RegistryOwned, TablesOwned, OneLockPerKey;
    LocksKept(c, s, v);
    s' := Next(c, s, v).value;
    assert [v][1..] == [];
  }

  /** The pointer is used, and then everyone finishes. */
  lemma FinishLost(c: Config, s: State, v: Job) returns (schedule: seq<Job>, s': State)
    requires Parked(c, s, v) && Stale(s, v) && AllKnown(c, s.grants)
    ensures RunSchedule(c, s, schedule) == s' && AllDone(s') && v < |s'.pcs| && s'.pcs[v] == Done(Failed)
    ensures s.grants <= s'.grants && AllKnown(c, s'.grants)
    ensures OthersDone(c, s, v) ==> KeyOf(c, v) in s'.tables && s'.tables[KeyOf(c, v)].entry == WRECKED
  {
    var t := StaleStep(c, s, v);
    hide LocksOk, RunSchedule, Stale;
    var rest;
    rest, s' := CanFinish(c, t);
    schedule := [v] + rest;
    RunConcat(c, s, [v], rest);
    GrantsGrow(c, t, rest);
    LostAlways(c, t, v, rest);
  }

  /** All other requests for the victim's table are done. */
  ghost predicate OthersDone(c: Config, s: State, v: Job) {
    forall j | 0 <= j < |s.pcs| && j != v && Known(c, j) && Known(c, v) && KeyOf(c, j) == KeyOf(c, v) ::
      s.pcs[j].Done?
  }

  /** From the parked victim to the end. */
  lemma LoseAnswer(c: Config, s: State, v: Job) returns (schedule: seq<Job>, s': State)
    requires Parked(c, s, v) && !FewTables(c) && KeyOf(c, v) in s.slots.names && AllKnown(c, s.grants)
    requires Untouched(c, s, Indexed(c) - {KeyOf(c, v)})
    ensures RunSchedule(c, s, schedule) == s' && AllDone(s') && v < |s'.pcs| && s'.pcs[v] == Done(Failed)
    ensures s.grants <= s'.grants && AllKnown(c, s'.grants)
    ensures OthersDone(c, s, v) ==> KeyOf(c, v) in s'.tables && s'.tables[KeyOf(c, v)].entry == WRECKED
  {
    hide Indexed, LocksOk, RunSchedule, Untouched, Stale, FewTables;
    var first, more, t;
    first, t := GoStale(c, s, v);
    assert LocksOk(c, s) && ConfigOk(c);
    GrantsGrow(c, s, first);
    more, s' := FinishLost(c, t, v);
    schedule := first + more;
    RunConcat(c, s, first, more);
  }

  ghost predicate CanGoStale(c: Config, s: State) {
    exists schedule: seq<Job>, j: Job :: Stale(RunSchedule(c, s, schedule), j)
  }

  lemma PickVictim(c: Config) returns (v: Job)
    requires !FewTables(c)
    ensures v < |c.requests| && Reaches(c, v) && Lockable(c, KeyOf(c, v))
  {
    var name :| name in Indexed(c);
    var j: nat :| j < |c.requests| && Reaches(c, j) && Lockable(c, KeyOf(c, j)) && KeyOf(c, j) == name;
    v := j;
  }

  /** The victim parked as the last of its table's requests. */
  lemma ParkLast(c: Config, s: State, v: Job) returns (schedule: seq<Job>, s': State)
    requires ConfigOk(c) && Init(c, s) && v < |c.requests| && Reaches(c, v) && Lockable(c, KeyOf(c, v))
    ensures RunSchedule(c, s, schedule) == s' && Parked(c, s', v) && KeyOf(c, v) in s'.slots.names
    ensures Untouched(c, s', Indexed(c) - {KeyOf(c, v)}) && OthersDone(c, s', v) && AllKnown(c, s'.grants)
  {
    hide RunSchedule, UsesIndex, Indexed, LocksOk, Lockable, Approaching;
    var first, more, t;
    assert |s.pcs| == |c.requests|;
    first, t := RunOthers(c, s, v, |s.pcs|);
    assert LocksOk(c, s) by {
      InitOk(c, s);
    }
    GrantsGrow(c, s, first);
    assert |t.pcs| == |c.requests| by {
      LocksSane(c, t);
    }
    VictimApproaches(c, t, v);
    more, s' := Park(c, t, v);
    schedule := first + more;
    RunConcat(c, s, first, more);
  }

  /**
   * Some run uses an entry pointer after the array has moved if and only if requests reach the indexes of more than
   * four tables.
   */
  lemma StaleExactly(c: Config, s: State)
    requires ConfigOk(c) && Init(c, s)
    ensures CanGoStale(c, s) <==> !FewTables(c)
  {
    hide Init, Stale, RunSchedule, Indexed, FewTables, Parked, Untouched, Reaches, Lockable;
    if FewTables(c) {
      forall schedule: seq<Job>, j: Job ensures !Stale(RunSchedule(c, s, schedule), j) {
        NeverStale(c, s, schedule, j);
      }
    } else {
      var v := PickVictim(c);
      var first, more, t, s';
      first, t := ParkLast(c, s, v);
      more, s' := GoStale(c, t, v);
      RunConcat(c, s, first, more);
      assert Stale(RunSchedule(c, s, first + more), v);
    }
  }

  // ---- serial equivalence, exactly ----

  /** No index is left mid-split at the start. */
  ghost predicate Intact(c: Config) {
    forall k | k in c.init :: c.init[k].entry.tree.Sound?
  }

  lemma {:induction false} SerialIntact(c: Config, order: seq<Job>)
    requires ConfigOk(c) && AllKnown(c, order) && Intact(c)
    ensures forall k | k in c.init :: Serial(c, order)[k].entry.tree.Sound?
  {
    hide Execute;
    if order != [] {
      var before, j := order[..|order| - 1], order[|order| - 1];
      SerialIntact(c, before);
      assert KeyOf(c, j) in c.init;
      ExecuteIntact(c.requests[j].s, SchemaOf(c, j), c.requests[j].x, Serial(c, before)[KeyOf(c, j)]);
    }
  }

  lemma WreckedIsNotSerial(c: Config, s: State, k: string)
    requires Intact(c) && k in s.tables && s.tables[k].entry == WRECKED
    ensures !Equivalent(c, s)
  {
    hide Serial, SerialOutcome;
    if ConfigOk(c) && AllKnown(c, s.grants) {
      SerialIntact(c, s.grants);
    }
  }

  /** Every run that finishes is equivalent to serving the granted requests one by one. */
  ghost predicate AlwaysSerial(c: Config, s: State) {
    forall schedule: seq<Job> ::
      AllDone(RunSchedule(c, s, schedule)) ==> Equivalent(c, RunSchedule(c, s, schedule))
  }

  /**
   * Serial equivalence holds for all interleavings if and only if requests reach the indexes of at most four tables.
   */
  lemma SerialExactly(c: Config, s: State)
    requires ConfigOk(c) && Init(c, s) && Intact(c)
    ensures AlwaysSerial(c, s) <==> FewTables(c)
  {
    hide Init, RunSchedule, Indexed, FewTables, Parked, Untouched, Reaches, Lockable, Equivalent, AllDone, Intact;
    if FewTables(c) {
      forall schedule: seq<Job> | AllDone(RunSchedule(c, s, schedule))
        ensures Equivalent(c, RunSchedule(c, s, schedule))
      {
        SerialEquivalence(c, s, schedule);
      }
    } else {
      var v := PickVictim(c);
      var first, more, t, s';
      first, t := ParkLast(c, s, v);
      more, s' := LoseAnswer(c, t, v);
      RunConcat(c, s, first, more);
      WreckedIsNotSerial(c, s', KeyOf(c, v));
      assert !Equivalent(c, RunSchedule(c, s, first + more));
    }
  }

  /** The victim parked as the first request of all. */
  lemma ParkFirst(c: Config, s: State, v: Job) returns (schedule: seq<Job>, s': State)
    requires ConfigOk(c) && Init(c, s) && v < |c.requests| && Reaches(c, v) && c.requests[v].lockMemory
    ensures RunSchedule(c, s, schedule) == s' && Parked(c, s', v) && KeyOf(c, v) in s'.slots.names
    ensures Untouched(c, s', Indexed(c) - {KeyOf(c, v)}) && s'.grants == [v]
  {
    hide RunSchedule, UsesIndex, Indexed, LocksOk;
    assert LocksOk(c, s) by {
      InitOk(c, s);
    }
    schedule, s' := Park(c, s, v);
  }

  /**
   * With more than four tables any request that reaches the index can lose its answer: some run grants it first and
   * lets it fail, whatever the serial run answers.
   */
  lemma AnswerLost(c: Config, s: State, v: Job) returns (schedule: seq<Job>)
    requires ConfigOk(c) && Init(c, s) && !FewTables(c)
    requires v < |c.requests| && Reaches(c, v) && c.requests[v].lockMemory && KeyOf(c, v) in c.init
    ensures var s' := RunSchedule(c, s, schedule);
            && AllDone(s') && v < |s'.pcs| && s'.pcs[v] == Done(Failed)
            && |s'.grants| > 0 && s'.grants[0] == v && AllKnown(c, s'.grants)
            && SerialOutcome(c, s'.grants, 0) == JobRun(c, v, c.init[KeyOf(c, v)]).0
  {
    hide Init, RunSchedule, Indexed, FewTables, Untouched, Lockable, AllDone, UsesIndex, JobRun, LocksOk;
    var first, more, t, s';
    first, t := ParkFirst(c, s, v);
    more, s' := LoseAnswer(c, t, v);
    RunConcat(c, s, first, more);
    schedule := first + more;
    assert s'.grants[..0] == [];
  }

  /**
   * So with more than four tables an acceptable INSERT on a ready, readable table, with no fault at all, is refused in
   * some run although it is served first and its serial answer is a registered row.
   */
  lemma InsertLost(c: Config, s: State, v: Job) returns (schedule: seq<Job>)
    requires ConfigOk(c) && Init(c, s) && !FewTables(c)
    requires v < |c.requests| && Known(c, v) && c.requests[v].lockMemory && Calm(c.requests[v])
    requires c.requests[v].s.Insert?
    requires InsertRows.Insertable(c.requests[v].s.columns, c.requests[v].s.values, SchemaOf(c, v))
    requires KeyOf(c, v) in c.init && Ready(c.init[KeyOf(c, v)]) && Scan(c.init[KeyOf(c, v)].file).Ok?
    ensures var s' := RunSchedule(c, s, schedule);
            && AllDone(s') && v < |s'.pcs| && s'.pcs[v] == Done(Failed)
            && |s'.grants| > 0 && s'.grants[0] == v && AllKnown(c, s'.grants)
            && SerialOutcome(c, s'.grants, 0).Inserted? && !Equivalent(c, s')
  {
    hide Init, RunSchedule, FewTables, AllDone, Execute, Serial, SerialOutcome, InsertRows.Valid,
         InsertRows.DistinctNames, Ready, Scan;
    InsertSucceeds(c.requests[v].s, SchemaOf(c, v), NO_FAULTS, c.init[KeyOf(c, v)]);
    schedule := AnswerLost(c, s, v);
  }
}
