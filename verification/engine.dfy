/**
 * Concurrent requests: schema resolution, the lock manager, execution under a table lock, the index registry,
 * release.
 */
module Engine {
  import opened Wrappers
  import opened Ast
  import opened IndexSpec
  import opened ExecSpec
  import InsertRows
  import Numbers

  type Job = nat

  /** One request: its statement and what will go wrong while it is served. */
  datatype Request = Request(s: Statement, x: Faults, lockMemory: bool, forcedError: bool, outputStream: bool)

  /** `catalog` maps every accepted table name, alias or storage name, to its schema. */
  datatype Config = Config(catalog: map<string, Schema>, requests: seq<Request>, init: map<string, Table>)

  ghost predicate ConfigOk(c: Config) {
    forall name | name in c.catalog :: c.catalog[name].storage in c.init
  }

  /**
   * Where a running request stands with the index registry. After `Passed` it holds an entry pointer and no mutex;
   * `seen` is the generation of the registry array that the pointer was taken from.
   */
  datatype Registry = Idle | Waiting | Inside | Passed(seen: nat)

  /** Where a request stands. `entry` is the position of its lock in the manager's list. */
  datatype JobPc =
    | Start
    | WantManager(key: string)
    | HasManager(key: string)
    | LeaveManager(key: string, entry: nat)
    | WantTable(key: string, entry: nat)
    | HasTable(key: string, entry: nat)
    | Running(key: string, entry: nat, pc: Pc, registry: Registry)
    | Releasing(key: string, entry: nat, outcome: Outcome)
    | Done(outcome: Outcome)

  datatype Lock = Lock(key: string, owner: Option<Job>)

  /** The registry array: the names in its used slots, its capacity, and how often it was reallocated. */
  datatype Slots = Slots(names: seq<string>, capacity: nat, generation: nat)

  /** The shared state; `grants` records the order in which table locks were granted. */
  datatype State = State(
    pcs: seq<JobPc>,
    manager: Option<Job>,
    registry: Option<Job>,
    slots: Slots,
    locks: seq<Lock>,
    tables: map<string, Table>,
    grants: seq<Job>)

  ghost predicate Init(c: Config, s: State) {
    && |s.pcs| == |c.requests| && (forall j | 0 <= j < |s.pcs| :: s.pcs[j] == Start)
    && s.manager.None? && s.registry.None? && s.slots == Slots([], 0, 0) && s.locks == [] && s.tables == c.init
    && s.grants == []
  }

  ghost function Find(locks: seq<Lock>, key: string): (e: nat)
    ensures e <= |locks| && (e < |locks| ==> locks[e].key == key) && forall i | 0 <= i < e :: locks[i].key != key
  {
    if locks == [] || locks[0].key == key then 0 else 1 + Find(locks[1..], key)
  }

  /** Whether a statement gets as far as the index: a valid INSERT, or a SELECT by a number. */
  ghost predicate UsesIndex(s: Statement, schema: Schema) {
    match s
    case Insert(_, columns, values) => InsertRows.Valid(columns, values, schema)
    case Select(_, all, columns, where) =>
      && SelectPlan(all, columns, schema).Some? && WhereKnown(where, schema)
      && ById(where) && Numbers.ParseInt(where.value.value).Some?
  }

  /** Executor steps that look up or create the table's registry entry and then work on it through a pointer. */
  ghost predicate TakesEntry(s: Statement, schema: Schema, x: Faults, pc: Pc) {
    (pc.Begin? && UsesIndex(s, schema)) || (pc.Written? && !x.forced)
  }

  /** Executor steps that enter the registry's critical section first; an invalidation is done before leaving it. */
  ghost predicate NeedsRegistry(s: Statement, schema: Schema, x: Faults, pc: Pc) {
    TakesEntry(s, schema, x, pc) || pc.Unregistered?
  }

  /** Finding or creating the entry of a table: a full array is reallocated, which moves all entries. */
  ghost function GetOrCreate(r: Slots, name: string): Slots {
    if name in r.names then r
    else if |r.names| == r.capacity then
      Slots(r.names + [name], if r.capacity == 0 then 4 else 2 * r.capacity, r.generation + 1)
    else r.(names := r.names + [name])
  }

  /** The request is about to use an entry pointer into an array that has been moved since. */
  ghost predicate Stale(s: State, j: Job) {
    && j < |s.pcs| && s.pcs[j].Running? && !s.pcs[j].pc.Finished?
    && s.pcs[j].registry.Passed? && s.pcs[j].registry.seen != s.slots.generation
  }

  /** What stands for the undefined effect of writing through a stale pointer: a wrecked index. */
  const WRECKED := Entry(true, Damaged, 1)

  /** The schema a request resolves to. */
  ghost predicate Known(c: Config, j: Job) {
    j < |c.requests| && c.requests[j].s.table in c.catalog
  }

  ghost function SchemaOf(c: Config, j: Job): Schema
    requires Known(c, j)
  {
    c.catalog[c.requests[j].s.table]
  }

  /** The storage name of the table a request is about. */
  ghost function KeyOf(c: Config, j: Job): string
    requires Known(c, j)
  {
    SchemaOf(c, j).storage
  }

  ghost function At(s: State, j: Job, pc: JobPc): State
    requires j < |s.pcs|
  {
    s.(pcs := s.pcs[j := pc])
  }

  ghost function WithOwner(s: State, e: nat, owner: Option<Job>): State
    requires e < |s.locks|
  {
    s.(locks := s.locks[e := s.locks[e].(owner := owner)])
  }

  /** Pcs refer to existing locks and known tables. */
  ghost predicate Sane(c: Config, s: State, j: Job) {
    && j < |s.pcs| == |c.requests|
    && match s.pcs[j]
       case Start => true
       case Done(_) => true
       case WantManager(k) => Known(c, j) && k == KeyOf(c, j)
       case HasManager(k) => Known(c, j) && k == KeyOf(c, j)
       case p =>
         && Known(c, j) && p.key == KeyOf(c, j) && p.entry < |s.locks| && s.locks[p.entry].key == p.key
         && (p.Running? && p.pc.Finished? ==> p.registry.Idle?)
  }

  /** The step of the statement itself, through an entry pointer or inside the registry's critical section if needed. */
  ghost function StatementStep(c: Config, s: State, j: Job): State
    requires Sane(c, s, j) && s.pcs[j].Running? && s.pcs[j].key in s.tables
  {
    var Running(k, e, pc, r) := s.pcs[j];
    if Stale(s, j) then
      At(s, j, Running(k, e, Finished(Failed), Idle)).(tables := s.tables[k := s.tables[k].(entry := WRECKED)])
    else
      var t := Step(pc, c.requests[j].s, SchemaOf(c, j), c.requests[j].x, s.tables[k]);
      At(s, j, Running(k, e, t.0, Idle)).(tables := s.tables[k := t.1],
                                          registry := if r.Inside? then None else s.registry)
  }

  /** One step of a request inside the executor: the statement's own, or one on the way to the registry. */
  ghost function RunningStep(c: Config, s: State, j: Job): Option<State>
    requires Sane(c, s, j) && s.pcs[j].Running? && s.pcs[j].key in s.tables
  {
    var Running(k, e, pc, r) := s.pcs[j];
    var q := c.requests[j];
    if pc.Finished? then Some(At(s, j, Releasing(k, e, pc.outcome)))
    else if NeedsRegistry(q.s, SchemaOf(c, j), q.x, pc) && r.Idle? then Some(At(s, j, Running(k, e, pc, Waiting)))
    else if r.Waiting? then
      if s.registry.None? then Some(At(s, j, Running(k, e, pc, Inside)).(registry := Some(j))) else None
    else if r.Inside? && TakesEntry(q.s, SchemaOf(c, j), q.x, pc) then
      var slots := GetOrCreate(s.slots, k);
      Some(At(s, j, Running(k, e, pc, Passed(slots.generation))).(slots := slots, registry := None))
    else Some(StatementStep(c, s, j))
  }

  /** One step of request `j`; None if it has to wait or is finished. */
  ghost function Next(c: Config, s: State, j: Job): Option<State>
    requires Sane(c, s, j) && ConfigOk(c) && s.tables.Keys == c.init.Keys
  {
    match s.pcs[j]
    case Start =>
      if !Known(c, j) then Some(At(s, j, Done(Failed))) else Some(At(s, j, WantManager(KeyOf(c, j))))
    case WantManager(k) =>
      if s.manager.None? then Some(At(s, j, HasManager(k)).(manager := Some(j))) else None
    case HasManager(k) =>
      var e := Find(s.locks, k);
      if e < |s.locks| then Some(At(s, j, LeaveManager(k, e)))
      else if c.requests[j].lockMemory then Some(At(s, j, LeaveManager(k, e)).(locks := s.locks + [Lock(k, None)]))
      else Some(At(s, j, Done(Failed)).(manager := None))
    case LeaveManager(k, e) => Some(At(s, j, WantTable(k, e)).(manager := None))
    case WantTable(k, e) =>
      if s.locks[e].owner.None? then
        Some(WithOwner(At(s, j, HasTable(k, e)), e, Some(j)).(grants := s.grants + [j])) else None
    case HasTable(k, e) =>
      if c.requests[j].forcedError || !c.requests[j].outputStream then Some(At(s, j, Releasing(k, e, Failed)))
      else Some(At(s, j, Running(k, e, Begin, Idle)))
    case Running(_, _, _, _) => RunningStep(c, s, j)
    case Releasing(k, e, o) => Some(WithOwner(At(s, j, Done(o)), e, None))
    case Done(_) => None
  }

  /** Letting the scheduler pick request `j`: it steps, or nothing happens because it waits or is finished. */
  ghost function Pick(c: Config, s: State, j: Job): State {
    if ConfigOk(c) && AllSane(c, s) && j < |s.pcs| && Next(c, s, j).Some? then Next(c, s, j).value else s
  }

  ghost function RunSchedule(c: Config, s: State, schedule: seq<Job>): State
    decreases |schedule|
  {
    if schedule == [] then s else RunSchedule(c, Pick(c, s, schedule[0]), schedule[1..])
  }

  lemma {:induction false} RunConcat(c: Config, s: State, a: seq<Job>, b: seq<Job>)
    ensures RunSchedule(c, s, a + b) == RunSchedule(c, RunSchedule(c, s, a), b)
    decreases |a|
  {
    hide Pick;
    if a == [] {
      assert a + b == b;
    } else {
      assert (a + b)[1..] == a[1..] + b;
      RunConcat(c, Pick(c, s, a[0]), a[1..], b);
    }
  }

  // ---- lock invariants ----

  ghost predicate InManager(pc: JobPc) {
    pc.HasManager? || pc.LeaveManager?
  }

  ghost predicate InRegistry(pc: JobPc) {
    pc.Running? && pc.registry.Inside?
  }

  ghost predicate HoldsTable(pc: JobPc) {
    pc.HasTable? || pc.Running? || pc.Releasing?
  }

  ghost predicate HoldsLock(pc: JobPc, e: nat) {
    HoldsTable(pc) && pc.entry == e
  }

  ghost predicate AllSane(c: Config, s: State) {
    |s.pcs| == |c.requests| && s.tables.Keys == c.init.Keys && forall j | 0 <= j < |s.pcs| :: Sane(c, s, j)
  }

  ghost predicate ManagerOwned(s: State) {
    && (s.manager.Some? ==> s.manager.value < |s.pcs|)
    && forall j | 0 <= j < |s.pcs| :: s.manager == Some(j) <==> InManager(s.pcs[j])
  }

  ghost predicate RegistryOwned(s: State) {
    && (s.registry.Some? ==> s.registry.value < |s.pcs|)
    && forall j | 0 <= j < |s.pcs| :: s.registry == Some(j) <==> InRegistry(s.pcs[j])
  }

  ghost predicate TablesOwned(s: State) {
    && (forall e | 0 <= e < |s.locks| && s.locks[e].owner.Some? :: s.locks[e].owner.value < |s.pcs|)
    && forall e, j | 0 <= e < |s.locks| && 0 <= j < |s.pcs| :: s.locks[e].owner == Some(j) <==> HoldsLock(s.pcs[j], e)
  }

  /** The list holds at most one lock per key. */
  ghost predicate OneLockPerKey(s: State) {
    forall e, f | 0 <= e < f < |s.locks| :: s.locks[e].key != s.locks[f].key
  }

  ghost predicate LocksOk(c: Config, s: State) {
    AllSane(c, s) && ManagerOwned(s) && RegistryOwned(s) && TablesOwned(s) && OneLockPerKey(s)
  }

  /** How one mutex changes when job `j` moves from `before` to `after` its critical section. */
  ghost predicate Moved(owner: Option<Job>, owner': Option<Job>, j: Job, before: bool, after: bool) {
    if before == after then owner' == owner
    else if after then owner.None? && owner' == Some(j)
    else owner' == None
  }

  /** What any step of job `j` does to the manager's and the registry's mutex. */
  ghost predicate MutexEffect(s: State, s': State, j: Job)
    requires j < |s.pcs|
  {
    && |s'.pcs| == |s.pcs| && (forall i | 0 <= i < |s.pcs| && i != j :: s'.pcs[i] == s.pcs[i])
    && Moved(s.manager, s'.manager, j, InManager(s.pcs[j]), InManager(s'.pcs[j]))
    && Moved(s.registry, s'.registry, j, InRegistry(s.pcs[j]), InRegistry(s'.pcs[j]))
  }

  /** What any step of job `j` does to the list of table locks: one may be acquired or released, or a new one added. */
  ghost predicate LockEffect(s: State, s': State, j: Job)
    requires j < |s.pcs| == |s'.pcs|
  {
    && |s.locks| <= |s'.locks|
    && (forall e | 0 <= e < |s.locks| :: s'.locks[e].key == s.locks[e].key
          && Moved(s.locks[e].owner, s'.locks[e].owner, j, HoldsLock(s.pcs[j], e), HoldsLock(s'.pcs[j], e)))
    && (forall e | |s.locks| <= e < |s'.locks| :: e == |s.locks| && s'.locks[e].owner.None? && !HoldsLock(s'.pcs[j], e)
          && forall i | 0 <= i < e :: s.locks[i].key != s'.locks[e].key)
  }

  ghost predicate Effect(s: State, s': State, j: Job)
    requires j < |s.pcs|
  {
    MutexEffect(s, s', j) && LockEffect(s, s', j)
  }

  /** All that a step inside the executor can change: its pc, its own table, the registry array and its mutex. */
  ghost predicate RunningEffect(s: State, s': State, j: Job) {
    && j < |s.pcs| == |s'.pcs| && s.pcs[j].Running?
    && s' == s.(pcs := s.pcs[j := s'.pcs[j]], registry := s'.registry, slots := s'.slots, tables := s'.tables)
    && s'.tables.Keys == s.tables.Keys
    && (forall k | k in s.tables && k != s.pcs[j].key :: s'.tables[k] == s.tables[k])
    && Moved(s.registry, s'.registry, j, InRegistry(s.pcs[j]), InRegistry(s'.pcs[j]))
    && (s'.pcs[j].Running? || s'.pcs[j].Releasing?)
    && s'.pcs[j].key == s.pcs[j].key && s'.pcs[j].entry == s.pcs[j].entry
    && (s'.pcs[j].Running? && s'.pcs[j].pc.Finished? ==> s'.pcs[j].registry.Idle?)
  }

  lemma StatementEffect(c: Config, s: State, j: Job)
    requires Sane(c, s, j) && s.pcs[j].Running? && s.pcs[j].key in s.tables && !s.pcs[j].registry.Waiting?
    ensures RunningEffect(s, StatementStep(c, s, j), j)
  {
    hide Step, SchemaOf, KeyOf, Known;
  }

  lemma RunningSteps(c: Config, s: State, j: Job)
    requires ConfigOk(c) && AllSane(c, s) && j < |s.pcs| && s.pcs[j].Running? && Next(c, s, j).Some?
    ensures RunningEffect(s, Next(c, s, j).value, j)
  {
    assert Sane(c, s, j) && s.pcs[j].key in s.tables;
    hide StatementStep, NeedsRegistry, TakesEntry, GetOrCreate, SchemaOf, KeyOf, Known, ConfigOk;
    if !s.pcs[j].registry.Waiting? {
      StatementEffect(c, s, j);
    }
  }

  lemma StepMutexEffect(c: Config, s: State, j: Job)
    requires ConfigOk(c) && AllSane(c, s) && j < |s.pcs| && Next(c, s, j).Some?
    ensures MutexEffect(s, Next(c, s, j).value, j)
  {
    hide RunningStep, Find;
    assert Sane(c, s, j);
    if s.pcs[j].Running? {
      RunningSteps(c, s, j);
    }
  }

  lemma SameLocks(s: State, s': State, j: Job)
    requires j < |s.pcs| == |s'.pcs| && s'.locks == s.locks
    requires forall e: nat | e < |s.locks| :: HoldsLock(s.pcs[j], e) == HoldsLock(s'.pcs[j], e)
    ensures LockEffect(s, s', j)
  {
  }

  /** A request that is granted a table's mutex, or gives it back. */
  lemma OwnerChanges(c: Config, s: State, j: Job)
    requires ConfigOk(c) && AllSane(c, s) && j < |s.pcs| && (s.pcs[j].WantTable? || s.pcs[j].Releasing?)
    requires Next(c, s, j).Some?
    ensures |Next(c, s, j).value.pcs| == |s.pcs| && LockEffect(s, Next(c, s, j).value, j)
  {
    hide RunningStep, Find, ConfigOk;
    assert Sane(c, s, j);
    hide Sane;
  }

  /** The manager finds the table's lock or adds one. */
  lemma LockAdded(c: Config, s: State, j: Job)
    requires ConfigOk(c) && AllSane(c, s) && j < |s.pcs| && s.pcs[j].HasManager?
    ensures Next(c, s, j).Some?
    ensures |Next(c, s, j).value.pcs| == |s.pcs| && LockEffect(s, Next(c, s, j).value, j)
  {
    hide RunningStep, ConfigOk;
    assert Sane(c, s, j);
    hide Sane;
  }

  lemma StepLockEffect(c: Config, s: State, j: Job)
    requires ConfigOk(c) && AllSane(c, s) && j < |s.pcs| && Next(c, s, j).Some?
    ensures |Next(c, s, j).value.pcs| == |s.pcs| && LockEffect(s, Next(c, s, j).value, j)
  {
    hide RunningStep, LockEffect, Find, ConfigOk;
    assert Sane(c, s, j);
    if s.pcs[j].WantTable? || s.pcs[j].Releasing? {
      OwnerChanges(c, s, j);
    } else if s.pcs[j].HasManager? {
      LockAdded(c, s, j);
    } else {
      if s.pcs[j].Running? {
        RunningSteps(c, s, j);
      }
      SameLocks(s, Next(c, s, j).value, j);
    }
  }

  /** The lock invariants hold in every state. */
  lemma LocksKept(c: Config, s: State, j: Job)
    requires ConfigOk(c) && LocksOk(c, s) && j < |s.pcs| && Next(c, s, j).Some?
    ensures LocksOk(c, Next(c, s, j).value)
  {
    SaneKept(c, s, j);
    StepMutexEffect(c, s, j);
    StepLockEffect(c, s, j);
    hide Next, Sane;
    var s' := Next(c, s, j).value;
    ManagerKept(s, s', j);
    TablesKept(c, s, s', j);
  }

  lemma SaneKept(c: Config, s: State, j: Job)
    requires ConfigOk(c) && AllSane(c, s) && j < |s.pcs| && Next(c, s, j).Some?
    ensures AllSane(c, Next(c, s, j).value)
  {
    var s' := Next(c, s, j).value;
    OwnSane(c, s, j);
    hide Next;
    forall i | 0 <= i < |s.pcs| && i != j ensures Sane(c, s', i) {
      assert Sane(c, s, i);
    }
  }

  /** What every request relies on to stay sane: known tables, and locks that keep their places. */
  ghost predicate SameGround(s: State, s': State, j: Job) {
    && |s'.pcs| == |s.pcs| && (forall i | 0 <= i < |s.pcs| && i != j :: s'.pcs[i] == s.pcs[i])
    && s'.tables.Keys == s.tables.Keys
    && |s'.locks| >= |s.locks| && forall e | 0 <= e < |s.locks| :: s'.locks[e].key == s.locks[e].key
  }

  /** A step inside the executor leaves the ground alone. */
  lemma RunningSane(c: Config, s: State, s': State, j: Job)
    requires AllSane(c, s) && RunningEffect(s, s', j)
    ensures SameGround(s, s', j) && Sane(c, s', j)
  {
    hide Moved, InRegistry, KeyOf;
    assert Sane(c, s, j);
  }

  /** On the way to the lock manager and through it. */
  lemma ManagerSane(c: Config, s: State, j: Job)
    requires ConfigOk(c) && AllSane(c, s) && j < |s.pcs| && Next(c, s, j).Some?
    requires s.pcs[j].Start? || s.pcs[j].WantManager? || s.pcs[j].HasManager?
    ensures SameGround(s, Next(c, s, j).value, j) && Sane(c, Next(c, s, j).value, j)
  {
    hide RunningStep, SchemaOf, KeyOf, Known, ConfigOk;
    assert Sane(c, s, j);
  }

  /** To the table's mutex and back. */
  lemma TableSane(c: Config, s: State, j: Job)
    requires ConfigOk(c) && AllSane(c, s) && j < |s.pcs| && Next(c, s, j).Some?
    requires s.pcs[j].LeaveManager? || s.pcs[j].WantTable? || s.pcs[j].HasTable? || s.pcs[j].Releasing?
    ensures SameGround(s, Next(c, s, j).value, j) && Sane(c, Next(c, s, j).value, j)
  {
    hide RunningStep, SchemaOf, KeyOf, Known, ConfigOk, Find;
    assert Sane(c, s, j);
  }

  lemma OwnSane(c: Config, s: State, j: Job)
    requires ConfigOk(c) && AllSane(c, s) && j < |s.pcs| && Next(c, s, j).Some?
    ensures SameGround(s, Next(c, s, j).value, j) && Sane(c, Next(c, s, j).value, j)
  {
    assert Sane(c, s, j);
    assert !s.pcs[j].Done?;
    if s.pcs[j].Running? {
      RunningSteps(c, s, j);
      hide Next, RunningEffect, SameGround, Sane;
      RunningSane(c, s, Next(c, s, j).value, j);
    } else {
      hide Next, SameGround, Sane;
      if s.pcs[j].Start? || s.pcs[j].WantManager? || s.pcs[j].HasManager? {
        ManagerSane(c, s, j);
      } else {
        TableSane(c, s, j);
      }
    }
  }

  lemma ManagerKept(s: State, s': State, j: Job)
    requires j < |s.pcs| && Effect(s, s', j)
    ensures ManagerOwned(s) ==> ManagerOwned(s')
    ensures RegistryOwned(s) ==> RegistryOwned(s')
    ensures OneLockPerKey(s) ==> OneLockPerKey(s')
  {
  }

  lemma TablesKept(c: Config, s: State, s': State, j: Job)
    requires j < |s.pcs| && Effect(s, s', j) && TablesOwned(s) && AllSane(c, s)
    ensures TablesOwned(s')
  {
    forall e, i | 0 <= e < |s'.locks| && 0 <= i < |s'.pcs|
      ensures s'.locks[e].owner == Some(i) <==> HoldsLock(s'.pcs[i], e)
    {
      assert Sane(c, s, i);
      if e < |s.locks| {
        assert s.locks[e].owner == Some(i) <==> HoldsLock(s.pcs[i], e);
        assert s.locks[e].owner == Some(j) <==> HoldsLock(s.pcs[j], e);
      }
    }
  }
}
