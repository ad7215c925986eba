/** Which requests are served: who gets a table lock, and what is done under it. */
module EngineGrants {
  import opened Wrappers
  import opened ExecSpec
  import opened Engine
  import opened EngineRegistry
  import opened EngineSerial
  import opened EngineRuns
  import opened EngineAlone

  /** At some pick of the schedule the request looks for its table's lock and finds it in the list. */
  ghost predicate FindsLock(c: Config, s: State, schedule: seq<Job>, j: Job)
    requires Known(c, j)
    decreases |schedule|
  {
    schedule != [] &&
    ((schedule[0] == j && j < |s.pcs| && s.pcs[j].HasManager? && HasLock(s, KeyOf(c, j)))
     || FindsLock(c, Pick(c, s, schedule[0]), schedule[1..], j))
  }

  /** The list of grants holds exactly the requests that have passed the wait for their table's mutex. */
  ghost predicate GrantOk(s: State, j: Job) {
    && j < |s.pcs|
    && (HoldsTable(s.pcs[j]) ==> j in s.grants)
    && (!Granted(s.pcs[j]) ==> j !in s.grants)
  }

  /** The request has its table's lock and goes on to the table. */
  ghost predicate Served(s: State, j: Job) {
    j < |s.pcs| && (s.pcs[j].LeaveManager? || s.pcs[j].WantTable? || HoldsTable(s.pcs[j]) ||
                    (s.pcs[j].Done? && j in s.grants))
  }

  lemma GrantEffect(c: Config, s: State, i: Job)
    requires ConfigOk(c) && AllSane(c, s) && i < |s.pcs| && Next(c, s, i).Some?
    ensures var s' := Next(c, s, i).value;
            s'.grants == if s.pcs[i].WantTable? then s.grants + [i] else s.grants
  {
    hide RunningStep, Find;
    assert Sane(c, s, i);
    if s.pcs[i].Running? {
      RunningSteps(c, s, i);
    }
  }

  /** What one step of a request does to its place on the way to the table. */
  lemma WayStep(c: Config, s: State, j: Job)
    requires ConfigOk(c) && AllSane(c, s) && j < |s.pcs| && Next(c, s, j).Some? && GrantOk(s, j)
    ensures GrantOk(Next(c, s, j).value, j)
    ensures Served(s, j) ==> Served(Next(c, s, j).value, j)
    ensures !Served(s, j) && !s.pcs[j].Done? ==>
              var s' := Next(c, s, j).value;
              && (Served(s', j) ==> s.pcs[j].HasManager? && Known(c, j))
              && (s'.pcs[j].Done? <==> !Known(c, j) || (s.pcs[j].HasManager? && !Served(s', j)))
              && (s.pcs[j].HasManager? && Known(c, j) ==>
                    (Served(s', j) <==> HasLock(s, KeyOf(c, j)) || c.requests[j].lockMemory))
  {
    GrantEffect(c, s, j);
    hide RunningStep;
    assert Sane(c, s, j);
    if s.pcs[j].Running? {
      RunningSteps(c, s, j);
    } else if s.pcs[j].HasManager? {
      ManagerFinds(s, KeyOf(c, j));
    }
  }

  lemma OtherStep(c: Config, s: State, i: Job, j: Job)
    requires ConfigOk(c) && AllSane(c, s) && i < |s.pcs| && Next(c, s, i).Some? && GrantOk(s, j) && i != j
    ensures var s' := Next(c, s, i).value;
            GrantOk(s', j) && s'.pcs[j] == s.pcs[j] && (j in s'.grants <==> j in s.grants)
  {
    GrantEffect(c, s, i);
    StepMutexEffect(c, s, i);
    hide Next, Sane;
  }

  lemma DoneStays(c: Config, s: State, i: Job, j: Job)
    requires ConfigOk(c) && AllSane(c, s) && i < |s.pcs| && Next(c, s, i).Some? && j < |s.pcs| && s.pcs[j].Done?
    ensures i != j
  {
  }

  /** One pick. */
  lemma WayPick(c: Config, s: State, i: Job, j: Job)
    requires ConfigOk(c) && LocksOk(c, s) && GrantOk(s, j)
    ensures LocksOk(c, Pick(c, s, i)) && GrantOk(Pick(c, s, i), j)
    ensures Served(s, j) ==> Served(Pick(c, s, i), j)
    ensures s.pcs[j].Done? ==> Pick(c, s, i).pcs[j].Done? && (Served(Pick(c, s, i), j) <==> Served(s, j))
    ensures !Served(s, j) && !s.pcs[j].Done? ==>
              var s' := Pick(c, s, i);
              && (Served(s', j) ==> i == j && s.pcs[j].HasManager? && Known(c, j)
                                    && (c.requests[j].lockMemory || HasLock(s, KeyOf(c, j))))
              && (s'.pcs[j].Done? && Known(c, j) ==>
                    !c.requests[j].lockMemory && !(i == j && HasLock(s, KeyOf(c, j))))
              && (i == j && s.pcs[j].HasManager? ==> Served(s', j) || s'.pcs[j].Done?)
              && (Known(c, j) && i == j && s.pcs[j].HasManager? && HasLock(s, KeyOf(c, j)) ==> Served(s', j))
  {
    hide Next, Served, HasLock, ManagerOwned, RegistryOwned, TablesOwned, OneLockPerKey;
    if i < |s.pcs| && Next(c, s, i).Some? {
      LocksKept(c, s, i);
      if i == j {
        WayStep(c, s, j);
      } else {
        OtherStep(c, s, i, j);
        OtherServed(s, Next(c, s, i).value, j);
      }
      if s.pcs[j].Done? {
        DoneStays(c, s, i, j);
      }
    }
    ManagerCanStep(c, s, j);
  }

  lemma OtherServed(s: State, s': State, j: Job)
    requires j < |s.pcs| && j < |s'.pcs| && s'.pcs[j] == s.pcs[j] && (j in s'.grants <==> j in s.grants)
    ensures Served(s', j) <==> Served(s, j)
  {
  }

  lemma ManagerCanStep(c: Config, s: State, j: Job)
    requires ConfigOk(c) && AllSane(c, s) && GrantOk(s, j)
    ensures s.pcs[j].HasManager? ==> Next(c, s, j).Some?
  {
  }

  /** The whole way of one request through a run. */
  lemma {:induction false} Way(c: Config, s: State, schedule: seq<Job>, j: Job)
    requires ConfigOk(c) && LocksOk(c, s) && GrantOk(s, j)
    ensures GrantOk(RunSchedule(c, s, schedule), j)
    ensures Served(s, j) ==> Served(RunSchedule(c, s, schedule), j)
    ensures s.pcs[j].Done? ==>
              RunSchedule(c, s, schedule).pcs[j].Done? && (Served(RunSchedule(c, s, schedule), j) <==> Served(s, j))
    ensures !Served(s, j) && !s.pcs[j].Done? && RunSchedule(c, s, schedule).pcs[j].Done? ==>
              (Served(RunSchedule(c, s, schedule), j)
               <==> Known(c, j) && (c.requests[j].lockMemory || FindsLock(c, s, schedule, j)))
    decreases |schedule|
  {
    hide Pick, Served, HasLock, LocksOk;
    if schedule != [] {
      WayPick(c, s, schedule[0], j);
      Way(c, Pick(c, s, schedule[0]), schedule[1..], j);
      if Known(c, j) && Pick(c, s, schedule[0]).pcs[j].Done? {
        DoneNeverLooks(c, Pick(c, s, schedule[0]), schedule[1..], j);
      }
    }
  }

  lemma {:induction false} DoneNeverLooks(c: Config, s: State, schedule: seq<Job>, j: Job)
    requires ConfigOk(c) && LocksOk(c, s) && GrantOk(s, j) && s.pcs[j].Done? && Known(c, j)
    ensures !FindsLock(c, s, schedule, j)
    decreases |schedule|
  {
    hide Pick, Served, HasLock, LocksOk;
    if schedule != [] {
      WayPick(c, s, schedule[0], j);
      DoneNeverLooks(c, Pick(c, s, schedule[0]), schedule[1..], j);
    }
  }

  lemma StartsUngranted(c: Config, s: State, j: Job)
    requires ConfigOk(c) && Init(c, s) && j < |c.requests|
    ensures LocksOk(c, s) && GrantOk(s, j) && !Served(s, j) && !s.pcs[j].Done?
  {
    InitOk(c, s);
  }

  /**
   * In every finished run, whatever the number of tables, a request has been granted its table's lock if and only if
   * its table is known and the lock could be allocated or was in the list when the request looked for it.
   */
  lemma GrantedExactly(c: Config, s: State, schedule: seq<Job>, j: Job)
    requires ConfigOk(c) && Init(c, s) && j < |c.requests| && AllDone(RunSchedule(c, s, schedule))
    ensures j in RunSchedule(c, s, schedule).grants
       <==> Known(c, j) && (c.requests[j].lockMemory || FindsLock(c, s, schedule, j))
  {
    hide RunSchedule, Init, LocksOk, HasLock;
    StartsUngranted(c, s, j);
    Way(c, s, schedule, j);
  }

  /**
   * What a granted request answers: a failure if an error was forced or it had no output stream, and otherwise what the
   * whole statement gives, run at once on what the requests granted before it left of its table.
   */
  lemma GrantedAnswer(c: Config, s: State, schedule: seq<Job>, i: nat)
    requires ConfigOk(c) && Init(c, s) && FewTables(c) && AllDone(RunSchedule(c, s, schedule))
    requires i < |RunSchedule(c, s, schedule).grants|
    ensures var s' := RunSchedule(c, s, schedule);
            var j := s'.grants[i];
            && AllKnown(c, s'.grants) && Known(c, j) && KeyOf(c, j) in c.init && j < |s'.pcs| && j < |c.requests|
            && s'.pcs[j] == Done(
                  if c.requests[j].forcedError || !c.requests[j].outputStream then Failed
                  else Execute(c.requests[j].s, SchemaOf(c, j), c.requests[j].x,
                    Serial(c, s'.grants[..i])[KeyOf(c, j)]).0)
  {
    hide RunSchedule, Init, FewTables, Execute, Serial;
    SerialEquivalence(c, s, schedule);
    assert Known(c, RunSchedule(c, s, schedule).grants[i]);
  }
}
