/** One request served while all others stand still: it finishes, and its table's registry entry exists afterwards. */
module EngineAlone {
  import opened Wrappers
  import opened ExecSpec
  import opened Engine
  import opened EngineRegistry
  import opened EngineProgress

  /** A request that will not be in the way of one for table `key`. */
  ghost predicate StandsStill(pc: JobPc, key: string) {
    pc.Start? || pc.Done? || (pc.Running? && pc.registry.Passed? && pc.key != key)
  }

  ghost predicate Alone(c: Config, s: State, j: Job) {
    && ConfigOk(c) && LocksOk(c, s) && Known(c, j) && j < |s.pcs|
    && forall i | 0 <= i < |s.pcs| && i != j :: StandsStill(s.pcs[i], KeyOf(c, j))
  }

  lemma OwnerHolds(c: Config, s: State, e: nat)
    requires LocksOk(c, s) && e < |s.locks| && s.locks[e].owner.Some?
    ensures var i := s.locks[e].owner.value;
            i < |s.pcs| && HoldsTable(s.pcs[i]) && s.pcs[i].key == s.locks[e].key
  {
    assert Sane(c, s, s.locks[e].owner.value);
    assert HoldsLock(s.pcs[s.locks[e].owner.value], e);
  }

  lemma AloneSteps(c: Config, s: State, j: Job)
    requires Alone(c, s, j) && !s.pcs[j].Done?
    ensures Next(c, s, j).Some?
  {
    hide Step, GetOrCreate, TakesEntry, NeedsRegistry, Find;
    assert Sane(c, s, j);
    if s.pcs[j].WantTable? && s.locks[s.pcs[j].entry].owner.Some? {
      OwnerHolds(c, s, s.pcs[j].entry);
    }
  }

  ghost predicate HasLock(s: State, key: string) {
    exists e :: 0 <= e < |s.locks| && s.locks[e].key == key
  }

  /** The request will find or create its table's lock. */
  ghost predicate GetsLock(c: Config, s: State, j: Job)
    requires Known(c, j) && j < |s.pcs|
  {
    || HasLock(s, KeyOf(c, j))
    || (c.requests[j].lockMemory && (s.pcs[j].Start? || s.pcs[j].WantManager? || s.pcs[j].HasManager?))
  }

  /** The request will get as far as its first use of the index. */
  ghost predicate Approaching(c: Config, s: State, j: Job)
    requires Known(c, j) && j < |s.pcs|
  {
    && Reaches(c, j)
    && match s.pcs[j]
       case Start => GetsLock(c, s, j)
       case WantManager(_) => GetsLock(c, s, j)
       case HasManager(_) => GetsLock(c, s, j)
       case LeaveManager(_, _) => true
       case WantTable(_, _) => true
       case HasTable(_, _) => true
       case Running(_, _, pc, r) => pc.Begin? && !r.Passed?
       case _ => false
  }

  ghost predicate OnTheWay(c: Config, s: State, j: Job)
    requires Known(c, j) && j < |s.pcs|
  {
    Approaching(c, s, j) || KeyOf(c, j) in s.slots.names
  }

  /** What the shared state looks like after some steps of job `j`. */
  ghost predicate OwnEffect(c: Config, s: State, s': State, j: Job)
    requires Known(c, j)
  {
    && j < |s.pcs| == |s'.pcs| && s'.pcs == s.pcs[j := s'.pcs[j]]
    && (forall key :: HasLock(s, key) ==> HasLock(s', key))
    && (GetsLock(c, s, j) ==> GetsLock(c, s', j))
    && (s'.slots == s.slots || s'.slots == GetOrCreate(s.slots, KeyOf(c, j)))
  }

  lemma SlotsMove(c: Config, s: State, j: Job)
    requires ConfigOk(c) && AllSane(c, s) && Known(c, j) && j < |s.pcs| && Next(c, s, j).Some?
    ensures var r := Next(c, s, j).value.slots; r == s.slots || r == GetOrCreate(s.slots, KeyOf(c, j))
  {
    hide Next, GetOrCreate, TakesEntry;
    StepSlotsEffect(c, s, j);
  }

  lemma LockKeysKept(c: Config, s: State, j: Job, key: string)
    requires ConfigOk(c) && AllSane(c, s) && j < |s.pcs| && Next(c, s, j).Some? && HasLock(s, key)
    ensures HasLock(Next(c, s, j).value, key)
  {
    StepLockEffect(c, s, j);
    hide Next, Moved;
    var e :| 0 <= e < |s.locks| && s.locks[e].key == key;
    assert Next(c, s, j).value.locks[e].key == key;
  }

  lemma LockGot(c: Config, s: State, j: Job)
    requires ConfigOk(c) && AllSane(c, s) && Known(c, j) && j < |s.pcs| && Next(c, s, j).Some? && GetsLock(c, s, j)
    ensures GetsLock(c, Next(c, s, j).value, j)
  {
    var s', key := Next(c, s, j).value, KeyOf(c, j);
    if HasLock(s, key) {
      LockKeysKept(c, s, j, key);
    } else {
      hide Step, TakesEntry, NeedsRegistry, GetOrCreate, Stale;
      assert Sane(c, s, j);
      if s.pcs[j].HasManager? {
        assert s'.locks[|s.locks|].key == key;
      }
    }
  }

  lemma OwnStep(c: Config, s: State, j: Job)
    requires Alone(c, s, j) && Next(c, s, j).Some?
    ensures Alone(c, Next(c, s, j).value, j) && OwnEffect(c, s, Next(c, s, j).value, j)
  {
    LocksKept(c, s, j);
    StepMutexEffect(c, s, j);
    SlotsMove(c, s, j);
    hide Next, LocksOk, Moved, GetsLock, HasLock, GetOrCreate;
    var s' := Next(c, s, j).value;
    assert AllSane(c, s) by {
      LocksSane(c, s);
    }
    if GetsLock(c, s, j) {
      LockGot(c, s, j);
    }
    forall key | HasLock(s, key) ensures HasLock(s', key) {
      LockKeysKept(c, s, j, key);
    }
  }

  lemma LocksSane(c: Config, s: State)
    requires LocksOk(c, s)
    ensures AllSane(c, s)
  {
  }

  /** On its way the request changes no table, and it arrives when it takes its entry pointer. */
  ghost predicate ApproachEffect(c: Config, s: State, s': State, j: Job)
    requires Known(c, j) && j < |s.pcs| == |s'.pcs|
  {
    && s'.tables == s.tables
    && s'.grants == (if HoldsTable(s'.pcs[j]) && !HoldsTable(s.pcs[j]) then s.grants + [j] else s.grants)
    && (HoldsTable(s.pcs[j]) ==> HoldsTable(s'.pcs[j]))
    && if Approaching(c, s', j) then s'.slots == s.slots
       else
         && s'.slots == GetOrCreate(s.slots, KeyOf(c, j))
         && s'.pcs[j].Running? && s'.pcs[j].key == KeyOf(c, j) && s'.pcs[j].pc == Begin
         && s'.pcs[j].registry == Passed(s'.slots.generation)
  }

  lemma ApproachStep(c: Config, s: State, j: Job)
    requires ConfigOk(c) && AllSane(c, s) && Known(c, j) && j < |s.pcs| && Next(c, s, j).Some? && Approaching(c, s, j)
    ensures |Next(c, s, j).value.pcs| == |s.pcs| && ApproachEffect(c, s, Next(c, s, j).value, j)
  {
    hide Step, GetOrCreate, UsesIndex, HasLock;
    assert Sane(c, s, j);
    if s.pcs[j].Start? || s.pcs[j].WantManager? || s.pcs[j].HasManager? {
      LockGot(c, s, j);
      if s.pcs[j].HasManager? {
        ManagerFinds(s, KeyOf(c, j));
      }
    }
  }

  lemma ManagerFinds(s: State, key: string)
    ensures HasLock(s, key) <==> Find(s.locks, key) < |s.locks|
  {
  }

  lemma KeptOnTheWay(c: Config, s: State, j: Job)
    requires Alone(c, s, j) && Next(c, s, j).Some? && OnTheWay(c, s, j)
    ensures j < |Next(c, s, j).value.pcs| && OnTheWay(c, Next(c, s, j).value, j)
  {
    hide Next, Approaching, Sane;
    OwnStep(c, s, j);
    if Approaching(c, s, j) {
      ApproachStep(c, s, j);
    }
  }

  lemma EffectComposes(c: Config, s: State, t: State, s': State, j: Job)
    requires Known(c, j) && OwnEffect(c, s, t, j) && OwnEffect(c, t, s', j)
    ensures OwnEffect(c, s, s', j)
  {
    hide HasLock, GetsLock;
  }

  lemma DoneGotLock(c: Config, s: State, j: Job)
    requires Known(c, j) && j < |s.pcs| && s.pcs[j].Done?
    ensures GetsLock(c, s, j) ==> HasLock(s, KeyOf(c, j))
    ensures OnTheWay(c, s, j) ==> KeyOf(c, j) in s.slots.names
  {
  }

  /** A request that runs alone finishes. */
  lemma {:induction false} RunAlone(c: Config, s: State, j: Job) returns (schedule: seq<Job>, s': State)
    requires Alone(c, s, j)
    ensures RunSchedule(c, s, schedule) == s' && Alone(c, s', j) && OwnEffect(c, s, s', j) && s'.pcs[j].Done?
    ensures GetsLock(c, s, j) ==> HasLock(s', KeyOf(c, j))
    ensures OnTheWay(c, s, j) ==> KeyOf(c, j) in s'.slots.names
    decreases JobWork(s.pcs[j])
  {
    if s.pcs[j].Done? {
      schedule, s' := [], s;
      DoneGotLock(c, s, j);
    } else {
      AloneSteps(c, s, j);
      OwnStep(c, s, j);
      JobAdvances(c, s, j);
      if OnTheWay(c, s, j) {
        KeptOnTheWay(c, s, j);
      }
      var t := Next(c, s, j).value;
      hide Next, JobWork, OwnEffect, OnTheWay, GetsLock, HasLock, RunSchedule, Alone;
      var rest;
      rest, s' := RunAlone(c, t, j);
      schedule := [j] + rest;
      AloneFrom(c, s, t, s', j, rest);
    }
  }

  lemma AloneFrom(c: Config, s: State, t: State, s': State, j: Job, rest: seq<Job>)
    requires Alone(c, s, j) && Next(c, s, j) == Some(t) && OwnEffect(c, s, t, j) && OwnEffect(c, t, s', j)
    ensures RunSchedule(c, s, [j] + rest) == RunSchedule(c, t, rest) && OwnEffect(c, s, s', j)
    ensures GetsLock(c, s, j) ==> GetsLock(c, t, j)
  {
    hide Next, GetsLock, HasLock;
    EffectComposes(c, s, t, s', j);
    hide OwnEffect;
    RunFrom(c, s, j, rest);
  }

  /** A request on its way can run alone until it holds a fresh entry pointer. */
  lemma {:induction false} RunToPointer(c: Config, s: State, j: Job) returns (schedule: seq<Job>, s': State)
    requires Alone(c, s, j) && Approaching(c, s, j)
    ensures RunSchedule(c, s, schedule) == s' && Alone(c, s', j) && OwnEffect(c, s, s', j)
    ensures s'.slots == GetOrCreate(s.slots, KeyOf(c, j)) && s'.tables == s.tables
    ensures s'.grants == if HoldsTable(s.pcs[j]) then s.grants else s.grants + [j]
    ensures s'.pcs[j].Running? && s'.pcs[j].key == KeyOf(c, j) && s'.pcs[j].pc == Begin
    ensures s'.pcs[j].registry == Passed(s'.slots.generation)
    decreases JobWork(s.pcs[j])
  {
    assert !s.pcs[j].Done?;
    AloneSteps(c, s, j);
    OwnStep(c, s, j);
    ApproachStep(c, s, j);
    JobAdvances(c, s, j);
    var t := Next(c, s, j).value;
    hide Next, JobWork, OwnEffect, GetOrCreate, RunSchedule, Alone, Approaching;
    var rest := [];
    s' := t;
    if Approaching(c, t, j) {
      rest, s' := RunToPointer(c, t, j);
    }
    schedule := [j] + rest;
    PointerFrom(c, s, t, s', j, rest);
  }

  lemma PointerFrom(c: Config, s: State, t: State, s': State, j: Job, rest: seq<Job>)
    requires Alone(c, s, j) && Next(c, s, j) == Some(t) && OwnEffect(c, s, t, j)
    requires t == s' || OwnEffect(c, t, s', j)
    ensures RunSchedule(c, s, [j] + rest) == RunSchedule(c, t, rest) && OwnEffect(c, s, s', j)
    ensures rest == [] && s' == t ==> RunSchedule(c, t, rest) == s'
  {
    hide Next, GetsLock, HasLock;
    if t != s' {
      EffectComposes(c, s, t, s', j);
    }
    hide OwnEffect;
    RunFrom(c, s, j, rest);
  }
}
