/** The index registry's array: while requests reach the indexes of at most four tables, pointers into it stay good. */
module EngineRegistry {
  import opened Ast
  import opened IndexSpec
  import opened TableFile
  import opened ExecSpec
  import opened Engine
  import InsertRows
  import Numbers

  /** A request that gets as far as the index once it has its table lock. */
  ghost predicate Reaches(c: Config, j: Job) {
    && Known(c, j) && !c.requests[j].forcedError && c.requests[j].outputStream
    && UsesIndex(c.requests[j].s, SchemaOf(c, j))
  }

  /** The step neither looks at the index entry of its table nor changes it. */
  ghost predicate Ignores(s: Statement, schema: Schema, x: Faults, pc: Pc) {
    forall f: string, e: Entry, e': Entry ::
      var (r, r') := (Step(pc, s, schema, x, Table(f, e)), Step(pc, s, schema, x, Table(f, e')));
      r.0 == r'.0 && r.1.file == r'.1.file && r.1.entry == e && r'.1.entry == e'
  }

  /** The pcs that a statement of this kind goes through. */
  predicate PcOf(s: Statement, pc: Pc) {
    && (pc.HasId? || pc.HasRow? || pc.Written? || pc.Unregistered? ==> s.Insert?)
    && (pc.Located? ==> s.Select?)
  }

  /**
   * Exactly the steps that use the index enter the registry's critical section: all others would do the same whatever
   * the index holds, and leave it as it is.
   */
  lemma RegistryExactly(s: Statement, schema: Schema, x: Faults, pc: Pc)
    requires PcOf(s, pc) && !pc.Finished?
    ensures NeedsRegistry(s, schema, x, pc) <==> !Ignores(s, schema, x, pc)
  {
    if NeedsRegistry(s, schema, x, pc) {
      UsersLook(s, schema, x, pc);
    } else {
      OthersIgnore(s, schema, x, pc);
    }
  }

  lemma OthersIgnore(s: Statement, schema: Schema, x: Faults, pc: Pc)
    requires PcOf(s, pc) && !pc.Finished? && !NeedsRegistry(s, schema, x, pc)
    ensures Ignores(s, schema, x, pc)
  {
    hide InsertRows.Valid, ScanSelect, SelectPlan, Numbers.ParseInt, ReadAt, Project, Appended, InsertRows.RowFor;
  }

  lemma UsersLook(s: Statement, schema: Schema, x: Faults, pc: Pc)
    requires PcOf(s, pc) && !pc.Finished? && NeedsRegistry(s, schema, x, pc)
    ensures !Ignores(s, schema, x, pc)
  {
    hide InsertRows.Valid, ScanSelect, SelectPlan, Numbers.ParseInt, ReadAt, Project, Appended, InsertRows.RowFor;
    var e, e' := Entry(true, Sound([]), 1), Entry(true, Damaged, 2);
    var r, r' := Step(pc, s, schema, x, Table("", e)), Step(pc, s, schema, x, Table("", e'));
    assert r.0 != r'.0 || r.1.entry != e || r'.1.entry != e';
  }

  /** Some request can create the lock of this table. */
  ghost predicate Lockable(c: Config, name: string) {
    exists j: nat :: j < |c.requests| && Known(c, j) && KeyOf(c, j) == name && c.requests[j].lockMemory
  }

  /** The tables whose indexes are reached by requests. */
  ghost function Indexed(c: Config): set<string> {
    set j: nat | j < |c.requests| && Reaches(c, j) && Lockable(c, KeyOf(c, j)) :: KeyOf(c, j)
  }

  ghost predicate FewTables(c: Config) {
    |Indexed(c)| <= 4
  }

  ghost predicate NamesOk(c: Config, r: Slots) {
    |r.names| <= r.capacity && InsertRows.DistinctNames(r.names) && forall n | n in r.names :: n in Indexed(c)
  }

  /** The array has been allocated once at most, and pointers into it are from that allocation. */
  ghost predicate OneArray(r: Slots) {
    if r.capacity == 0 then r.generation == 0 else r.capacity == 4 && r.generation == 1
  }

  ghost predicate PointersOk(s: State) {
    forall j | 0 <= j < |s.pcs| && s.pcs[j].Running? && s.pcs[j].registry.Passed? ::
      s.pcs[j].registry.seen == s.slots.generation == 1
  }

  /** What a request has behind it while it executes. */
  ghost predicate OnCourse(c: Config, j: Job, pc: JobPc) {
    pc.Running? ==>
      && Known(c, j) && !c.requests[j].forcedError && c.requests[j].outputStream
      && (pc.pc.HasId? || pc.pc.HasRow? || pc.pc.Written? ==> Reaches(c, j))
  }

  ghost predicate CourseOk(c: Config, s: State) {
    && (forall j | 0 <= j < |s.pcs| :: OnCourse(c, j, s.pcs[j]))
    && (forall e | 0 <= e < |s.locks| :: Lockable(c, s.locks[e].key))
  }

  ghost predicate SlotsOk(c: Config, s: State) {
    NamesOk(c, s.slots) && OneArray(s.slots) && PointersOk(s) && CourseOk(c, s)
  }

  /** Different names from a set are no more than the set has. */
  lemma {:induction false} DistinctSize(names: seq<string>, all: set<string>)
    requires InsertRows.DistinctNames(names) && forall n | n in names :: n in all
    ensures |names| <= |all|
  {
    if names != [] {
      var last := names[|names| - 1];
      DistinctSize(names[..|names| - 1], all - {last});
    }
  }

  /** With few tables the array is never reallocated. */
  lemma GetOrCreateKeeps(c: Config, r: Slots, name: string)
    requires FewTables(c) && NamesOk(c, r) && OneArray(r) && name in Indexed(c)
    ensures var r' := GetOrCreate(r, name); NamesOk(c, r') && OneArray(r') && r'.generation == 1
    ensures r.capacity != 0 ==> GetOrCreate(r, name).generation == r.generation
  {
    hide Indexed;
    if name !in r.names {
      DistinctSize(r.names + [name], Indexed(c));
    }
  }

  /** How a step of job `j` changes the array: not at all, or by looking up its table and keeping the pointer. */
  ghost predicate SlotsEffect(c: Config, s: State, s': State, j: Job)
    requires j < |s.pcs|
  {
    && |s'.pcs| == |s.pcs| && (forall i | 0 <= i < |s.pcs| && i != j :: s'.pcs[i] == s.pcs[i])
    && if s'.pcs[j].Running? && s'.pcs[j].registry.Passed? then
         && Known(c, j) && s'.slots == GetOrCreate(s.slots, KeyOf(c, j))
         && s'.pcs[j].registry.seen == s'.slots.generation
         && s.pcs[j].Running? && s.pcs[j].key == KeyOf(c, j) && s.pcs[j].entry < |s.locks|
         && s.locks[s.pcs[j].entry].key == KeyOf(c, j)
         && TakesEntry(c.requests[j].s, SchemaOf(c, j), c.requests[j].x, s.pcs[j].pc)
       else s'.slots == s.slots
  }

  lemma StepSlotsEffect(c: Config, s: State, j: Job)
    requires ConfigOk(c) && AllSane(c, s) && j < |s.pcs| && Next(c, s, j).Some?
    ensures SlotsEffect(c, s, Next(c, s, j).value, j)
  {
    hide Step, Find, TakesEntry, NeedsRegistry, GetOrCreate, Stale;
    assert Sane(c, s, j);
  }

  lemma StepCourse(pc: Pc, s: Statement, schema: Schema, x: Faults, t: Table)
    ensures var pc' := Step(pc, s, schema, x, t).0;
            pc'.HasId? || pc'.HasRow? || pc'.Written? ==>
              s.Insert? && if pc.Begin? then UsesIndex(s, schema) else pc.HasId? || pc.HasRow?
  {
  }

  lemma CourseKept(c: Config, s: State, j: Job)
    requires ConfigOk(c) && AllSane(c, s) && CourseOk(c, s) && j < |s.pcs| && Next(c, s, j).Some?
    ensures CourseOk(c, Next(c, s, j).value)
  {
    hide Step, Find, TakesEntry, NeedsRegistry, GetOrCreate, Stale, UsesIndex;
    assert Sane(c, s, j) && OnCourse(c, j, s.pcs[j]);
    if s.pcs[j].Running? {
      StepCourse(s.pcs[j].pc, c.requests[j].s, SchemaOf(c, j), c.requests[j].x, s.tables[s.pcs[j].key]);
    }
  }

  lemma IndexedHas(c: Config, s: State, j: Job)
    requires CourseOk(c, s) && j < |s.pcs| && s.pcs[j].Running? && s.pcs[j].entry < |s.locks|
    requires Known(c, j) && TakesEntry(c.requests[j].s, SchemaOf(c, j), c.requests[j].x, s.pcs[j].pc)
    requires s.locks[s.pcs[j].entry].key == KeyOf(c, j)
    ensures KeyOf(c, j) in Indexed(c)
  {
    hide UsesIndex;
    assert OnCourse(c, j, s.pcs[j]);
  }

  lemma SlotsKept(c: Config, s: State, j: Job)
    requires ConfigOk(c) && AllSane(c, s) && FewTables(c) && SlotsOk(c, s) && j < |s.pcs| && Next(c, s, j).Some?
    ensures SlotsOk(c, Next(c, s, j).value)
  {
    hide Next, GetOrCreate, Indexed, TakesEntry, CourseOk, UsesIndex;
    StepSlotsEffect(c, s, j);
    CourseKept(c, s, j);
    var s' := Next(c, s, j).value;
    if s'.pcs[j].Running? && s'.pcs[j].registry.Passed? {
      IndexedHas(c, s, j);
      GetOrCreateKeeps(c, s.slots, KeyOf(c, j));
    }
  }

  lemma NotStale(c: Config, s: State, j: Job)
    requires SlotsOk(c, s)
    ensures !Stale(s, j)
  {
  }

  lemma {:induction false} SlotsAlways(c: Config, s: State, schedule: seq<Job>)
    requires ConfigOk(c) && LocksOk(c, s) && FewTables(c) && SlotsOk(c, s)
    ensures LocksOk(c, RunSchedule(c, s, schedule)) && SlotsOk(c, RunSchedule(c, s, schedule))
    decreases |schedule|
  {
    hide Next, SlotsOk, FewTables, ManagerOwned, RegistryOwned, TablesOwned, OneLockPerKey;
    if schedule != [] {
      var j := schedule[0];
      if j < |s.pcs| && Next(c, s, j).Some? {
        LocksKept(c, s, j);
        SlotsKept(c, s, j);
      }
      SlotsAlways(c, Pick(c, s, j), schedule[1..]);
    }
  }

  lemma InitOk(c: Config, s: State)
    requires ConfigOk(c) && Init(c, s)
    ensures LocksOk(c, s) && SlotsOk(c, s)
  {
  }

  /** While requests reach the indexes of at most four tables, no run ever uses a pointer after the array has moved. */
  lemma NeverStale(c: Config, s: State, schedule: seq<Job>, j: Job)
    requires ConfigOk(c) && Init(c, s) && FewTables(c)
    ensures !Stale(RunSchedule(c, s, schedule), j)
  {
    hide LocksOk, SlotsOk, Init;
    InitOk(c, s);
    SlotsAlways(c, s, schedule);
    NotStale(c, RunSchedule(c, s, schedule), j);
  }
}
