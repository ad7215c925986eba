/** The executor on real state: data files and the heap-allocated index registry. */
module Executors {
  import opened Wrappers
  import opened Ast
  import opened TableFile
  import opened IndexSpec
  import opened ExecSpec
  import opened Registries
  import InsertRows
  import Numbers
  import Csv

  /** Picks the output columns; None when a column is unknown or the list is empty. */
  method BuildSelectIndexes(all: bool, columns: seq<string>, schema: Schema) returns (plan: Option<Plan>)
    ensures plan == SelectPlan(all, columns, schema)
  {
    if all {
      return Some(Plan(schema.columns, seq(|schema.columns|, i => i)));
    }
    var headers, indexes := [], [];
    var index := 0;
    while index < |columns|
      invariant index <= |columns| && headers == columns[..index] && |indexes| == index
      invariant forall i | 0 <= i < index :: columns[i] == "id" || columns[i] in schema.columns
      invariant forall i | 0 <= i < index ::
                  indexes[i] == if columns[i] == "id" then INTERNAL_ID
                    else InsertRows.IndexOf(schema.columns, columns[i])
    {
      if columns[index] == "id" {
        headers, indexes := headers + ["id"], indexes + [INTERNAL_ID];
      } else {
        var schemaIndex := InsertRows.FindColumn(schema.columns, columns[index]);
        if schemaIndex < 0 {
          return None;
        }
        headers, indexes := headers + [columns[index]], indexes + [schemaIndex];
      }
      index := index + 1;
    }
    if index == 0 {
      return None;
    }
    assert columns[..|columns|] == columns;
    assert SelectPlan(all, columns, schema).Some? && indexes == SelectPlan(all, columns, schema).value.indexes;
    return Some(Plan(headers, indexes));
  }

  /** Copies the selected columns of one row. */
  method ProjectRow(fields: seq<string>, indexes: seq<int>, id: int) returns (row: seq<string>)
    requires IndexesOk(indexes, |fields|)
    ensures row == Project(fields, indexes, id)
  {
    hide Numbers.IntText, Project;
    row := [];
    var index := 0;
    assert indexes[0..] == indexes;
    ProjectEnd(fields, id);
    while index < |indexes|
      invariant index <= |indexes| && row + Project(fields, indexes[index..], id) == Project(fields, indexes, id)
    {
      ProjectStep(fields, indexes, index, id);
      var cell := if indexes[index] == INTERNAL_ID then Numbers.IntText(id) else fields[indexes[index]];
      ghost var rest := Project(fields, indexes[index + 1..], id);
      assert row + ([cell] + rest) == row + [cell] + rest;
      row := row + [cell];
      index := index + 1;
    }
    assert indexes[index..] == [];
  }

  lemma ProjectEnd(fields: seq<string>, id: int)
    ensures Project(fields, [], id) == []
  {
  }

  lemma ProjectStep(fields: seq<string>, indexes: seq<int>, index: nat, id: int)
    requires IndexesOk(indexes, |fields|) && index < |indexes|
    ensures Project(fields, indexes[index..], id)
         == [if indexes[index] == INTERNAL_ID then Numbers.IntText(id) else fields[indexes[index]]] +
           Project(fields, indexes[index + 1..], id)
  {
  }

  /** What the scan makes of the rows from `p` on, the first of which has number `id`; None for a malformed row. */
  ghost function ScanResult(f: File, p: nat, id: int, where: Option<Condition>, schema: Schema,
                            indexes: seq<int>): Option<seq<seq<string>>>
    requires p <= |f| && WhereKnown(where, schema) && IndexesOk(indexes, |schema.columns|)
  {
    if ScanFrom(f, p).Err? || !WidthsMatch(ScanFrom(f, p).value, |schema.columns|) then None
    else Some(Filter(ScanFrom(f, p).value, id, where, schema, indexes))
  }

  lemma ScanResultStep(f: File, p: nat, id: int, where: Option<Condition>, schema: Schema, indexes: seq<int>)
    requires p < |f| && WhereKnown(where, schema) && IndexesOk(indexes, |schema.columns|)
    ensures var e := LineEnd(f, p, p);
            var text := LineText(f, p, e);
            var parsed := Csv.Parse(text);
            var rest := ScanResult(f, e, id + 1, where, schema, indexes);
            && p < e
            && ScanResult(f, p, id, where, schema, indexes)
            == if text == "" then ScanResult(f, e, id, where, schema, indexes)
               else if parsed.Err? || |parsed.value| != |schema.columns| || rest.None? then None
               else Some((if Matches(where, schema, parsed.value, id) then [Project(parsed.value, indexes, id)]
                 else []) + rest.value)
  {
  }

  ghost function Prepend(rows: seq<seq<string>>, rest: Option<seq<seq<string>>>): Option<seq<seq<string>>> {
    if rest.None? then None else Some(rows + rest.value)
  }

  /** One line of the scan: skipped if blank, otherwise numbered, checked and projected if it matches. */
  method ScanLine(f: File, p: nat, id: int, where: Option<Condition>, whereIndex: int, schema: Schema,
                  indexes: seq<int>)
    returns (ok: bool, e: nat, id': int, hits: seq<seq<string>>)
    requires p < |f| && WhereKnown(where, schema) && !ById(where) && IndexesOk(indexes, |schema.columns|)
    requires where.Some? ==> whereIndex == InsertRows.IndexOf(schema.columns, where.value.column)
    ensures ok ==> p < e <= |f|
    ensures ScanResult(f, p, id, where, schema, indexes) ==
              if ok then Prepend(hits, ScanResult(f, e, id', where, schema, indexes)) else None
  {
    ScanResultStep(f, p, id, where, schema, indexes);
    hide ScanResult, LineEnd, LineText, ScanFrom;
    var text;
    text, e := ReadLine(f, p);
    if text == "" {
      assert forall rest: seq<seq<string>> :: [] + rest == rest;
      return true, e, id, [];
    }
    var fields := Csv.ParseLine(text);
    if fields.Err? || |fields.value| != |schema.columns| {
      return false, e, id, [];
    }
    if where.None? || fields.value[whereIndex] == where.value.value {
      var row := ProjectRow(fields.value, indexes, id);
      return true, e, id + 1, [row];
    }
    return true, e, id + 1, [];
  }

  /** The linear scan of a SELECT that is not by id. */
  method ScanRows(f: File, where: Option<Condition>, schema: Schema, indexes: seq<int>)
    returns (rows: Option<seq<seq<string>>>)
    requires WhereKnown(where, schema) && !ById(where) && IndexesOk(indexes, |schema.columns|)
    ensures rows == if f == "" then None else ScanResult(f, LineEnd(f, 0, 0), 1, where, schema, indexes)
  {
    if |f| == 0 {
      return None;
    }
    var whereIndex := if where.None? then -1 else InsertRows.IndexOf(schema.columns, where.value.column);
    var _, p := ReadLine(f, 0);
    ghost var all := ScanResult(f, p, 1, where, schema, indexes);
    var buffer, currentId := [], 1;
    assert all.Some? ==> [] + all.value == all.value;
    hide ScanResult, LineEnd;
    while p < |f|
      invariant p <= |f| && all == Prepend(buffer, ScanResult(f, p, currentId, where, schema, indexes))
      decreases |f| - p
    {
      var ok, e, id, hits := ScanLine(f, p, currentId, where, whereIndex, schema, indexes);
      if !ok {
        return None;
      }
      ghost var rest := ScanResult(f, e, id, where, schema, indexes);
      assert rest.Some? ==> buffer + (hits + rest.value) == buffer + hits + rest.value;
      buffer, currentId, p := buffer + hits, id, e;
    }
    ScanResultEnd(f, currentId, where, schema, indexes);
    assert buffer + [] == buffer;
    return Some(buffer);
  }

  lemma ScanResultEnd(f: File, id: int, where: Option<Condition>, schema: Schema, indexes: seq<int>)
    requires WhereKnown(where, schema) && IndexesOk(indexes, |schema.columns|)
    ensures ScanResult(f, |f|, id, where, schema, indexes) == Some([])
  {
  }

  /** Data files by storage name, and the index registry. */
  class Store {
    var files: map<string, File>
    const registry: Registry

    constructor (files: map<string, File>)
      ensures Valid() && this.files == files && fresh(registry) && fresh(registry.Repr)
      ensures forall name | name in files :: TableOf(name) == Table(files[name], NEW_ENTRY)
    {
      this.files := files;
      registry := new Registry();
    }

    ghost predicate Valid()
      reads this, registry, registry.Repr
    {
      this !in registry.Repr && registry.Valid()
    }

    ghost function TableOf(name: string): Table
      requires Valid() && name in files
      reads this, registry, registry.Repr
    {
      Table(files[name], registry.EntryOf(name))
    }

    /** No loaded index is damaged: the state between statements. */
    ghost predicate Usable(name: string)
      requires Valid()
      reads this, registry, registry.Repr
    {
      registry.Usable(name)
    }

    /** Runs an INSERT: validate, get the id, build, append, register, and invalidate if registering fails. */
    method ExecuteInsert(table: string, columns: seq<string>, values: seq<string>, schema: Schema, forced: bool,
                         loadBudget: nat, insertBudget: nat)
      returns (outcome: Outcome, ghost x: Faults)
      requires Valid() && schema.storage in files && Usable(schema.storage)
      modifies this, registry.Repr
      ensures Valid() && files.Keys == old(files.Keys) && Usable(schema.storage)
      ensures fresh(registry.Repr - old(registry.Repr))
      ensures (outcome, TableOf(schema.storage)) ==
                Execute(Insert(table, columns, values), schema, x, old(TableOf(schema.storage)))
      ensures x.forced == forced && (loadBudget >= |RowsOf(old(files[schema.storage]))| ==> x.memory)
      ensures (Coherent(old(registry.EntryOf(schema.storage)), old(files[schema.storage]))
               && insertBudget > |RowsOf(old(files[schema.storage]))|) ==> x.room
      ensures forall name | name in files && name != schema.storage :: TableOf(name) == old(TableOf(name))
    {
      hide RunToEnd, Execute, Step, IndexSpec.NextId, InsertRows.RowFor, InsertRows.Valid, InsertRows.DistinctNames,
           Registry.Valid, Registry.EntryOf;
      ghost var s, t0 := Insert(table, columns, values), TableOf(schema.storage);
      x := Faults(true, forced, true);
      RunHead(s, schema, x, t0);
      var valid := InsertRows.ValidateInsertColumns(columns, values, schema);
      if !valid {
        outcome := Failed;
        return;
      }
      var nextId;
      ghost var memory;
      nextId, memory := registry.GetNextId(schema.storage, files[schema.storage], loadBudget);
      NextIdUsable(t0.entry, t0.file, memory);
      if nextId.Some? && Coherent(t0.entry, t0.file) {
        NextIdSize(t0.entry, t0.file, memory);
      }
      var row := InsertRows.BuildInsertRow(columns, values, schema);
      if nextId.None? || row.Err? {
        outcome, x := Failed, Faults(memory, forced, true);
        RunHead(s, schema, x, t0);
        return;
      }
      outcome, x := AppendAndRegister(s, nextId.value, row.value, schema, forced, memory, insertBudget);
      RunHead(s, schema, x, t0);
    }

    /** The part of an INSERT after the row is built. */
    method AppendAndRegister(ghost s: Statement, id: int, row: seq<string>, schema: Schema, forced: bool,
                             ghost memory: bool, budget: nat)
      returns (outcome: Outcome, ghost x: Faults)
      requires Valid() && schema.storage in files && registry.EntryOf(schema.storage).loaded
      requires Usable(schema.storage) && s.Insert?
      modifies this, registry.Repr
      ensures Valid() && files.Keys == old(files.Keys) && Usable(schema.storage)
      ensures fresh(registry.Repr - old(registry.Repr))
      ensures x.memory == memory && x.forced == forced
      ensures budget > |old(registry.EntryOf(schema.storage)).tree.pairs| ==> x.room
      ensures (outcome, TableOf(schema.storage)) ==
                RunToEnd(HasRow(id, row), s, schema, x, old(TableOf(schema.storage)))
      ensures forall name | name in files && name != schema.storage :: TableOf(name) == old(TableOf(name))
    {
      hide RunToEnd, Step, Terminated, Csv.Encode, Registry.Valid, Registry.EntryOf;
      ghost var t := TableOf(schema.storage);
      var file, offset := AppendRow(files[schema.storage], row);
      files := files[schema.storage := file];
      var ok;
      ghost var other, room;
      ok, other, room := registry.RegisterRow(schema.storage, file, id, offset, forced, budget);
      x := Faults(memory, forced, room);
      RegisterUsable(t.entry, file, id, offset, forced, other, memory, room);
      RunTail(s, schema, x, t, id, row);
      outcome := if ok then Inserted(id, offset) else Failed;
      hide Register;
      if !ok {
        registry.Invalidate(schema.storage);
      }
    }

    /** Runs a SELECT: through the index for `WHERE id = ...`, by scanning the file otherwise. */
    method ExecuteSelect(table: string, all: bool, columns: seq<string>, where: Option<Condition>, schema: Schema,
                         loadBudget: nat)
      returns (outcome: Outcome, ghost x: Faults)
      requires Valid() && schema.storage in files && Usable(schema.storage)
      modifies registry.Repr
      ensures Valid() && Usable(schema.storage) && fresh(registry.Repr - old(registry.Repr))
      ensures (outcome, TableOf(schema.storage)) ==
                Execute(Select(table, all, columns, where), schema, x, old(TableOf(schema.storage)))
      ensures loadBudget >= |RowsOf(files[schema.storage])| ==> x.memory
      ensures forall name | name in files && name != schema.storage :: TableOf(name) == old(TableOf(name))
    {
      hide RunToEnd, Execute, Step, IndexSpec.FindRow, Registry.Valid, Registry.EntryOf, SelectPlan, ScanFrom, Scan,
           ReadAt, Project, Numbers.ParseInt;
      x := NO_FAULTS;
      var s := Select(table, all, columns, where);
      ghost var t := TableOf(schema.storage);
      RunSelect(s, schema, x, t);
      var plan := BuildSelectIndexes(all, columns, schema);
      if plan.None? || !WhereKnown(where, schema) {
        outcome := Failed;
        return;
      }
      if where.Some? && where.value.column == "id" {
        outcome, x := ExecuteIndexSelect(s, plan.value, schema, loadBudget);
        return;
      }
      var rows := ScanRows(files[schema.storage], where, schema, plan.value.indexes);
      ScanIsScanSelect(files[schema.storage], all, columns, where, schema);
      outcome := if rows.None? then Failed else Rows(plan.value.headers, rows.value);
    }

    /** The index path: parse the id, look it up, read the row at its offset. */
    method ExecuteIndexSelect(s: Statement, plan: Plan, schema: Schema, loadBudget: nat)
      returns (outcome: Outcome, ghost x: Faults)
      requires Valid() && schema.storage in files && Usable(schema.storage)
      requires s.Select? && ById(s.where) && SelectPlan(s.all, s.columns, schema) == Some(plan)
      modifies registry.Repr
      ensures Valid() && Usable(schema.storage) && fresh(registry.Repr - old(registry.Repr))
      ensures (outcome, TableOf(schema.storage)) == Execute(s, schema, x, old(TableOf(schema.storage)))
      ensures loadBudget >= |RowsOf(files[schema.storage])| ==> x.memory
      ensures forall name | name in files && name != schema.storage :: TableOf(name) == old(TableOf(name))
    {
      hide RunToEnd, Execute, Step, IndexSpec.FindRow, Registry.Valid, Registry.EntryOf, SelectPlan, ScanFrom, Scan,
           ReadAt, Project, Numbers.ParseInt;
      x := NO_FAULTS;
      ghost var t := TableOf(schema.storage);
      RunSelect(s, schema, x, t);
      var whereId := Numbers.ParseInt(s.where.value.value);
      if whereId.None? {
        outcome := Failed;
        return;
      }
      var lookup;
      ghost var memory;
      lookup, memory := registry.FindRow(schema.storage, files[schema.storage], whereId.value, loadBudget);
      x := Faults(memory, false, true);
      RunSelect(s, schema, x, t);
      FindUsable(t.entry, t.file, whereId.value, memory);
      if lookup.None? {
        outcome := Failed;
        return;
      }
      if lookup.value.None? {
        outcome := Rows(plan.headers, []);
        return;
      }
      var read := ReadRowAtOffset(files[schema.storage], lookup.value.value);
      if read.Err? || |read.value| != |schema.columns| {
        outcome := Failed;
        return;
      }
      var row := ProjectRow(read.value, plan.indexes, whereId.value);
      outcome := Rows(plan.headers, [row]);
    }

    /** Drops one index. */
    method InvalidateTable(name: string)
      requires Valid() && name in files
      modifies registry.Repr
      ensures Valid() && fresh(registry.Repr - old(registry.Repr))
      ensures TableOf(name) == Table(files[name], NEW_ENTRY)
      ensures forall n | n in files && n != name :: TableOf(n) == old(TableOf(n))
    {
      registry.Invalidate(name);
    }

    /** Drops all indexes. */
    method ResetRegistry()
      requires Valid()
      modifies registry.Repr
      ensures Valid() && fresh(registry.Repr - old(registry.Repr))
      ensures forall name | name in files :: TableOf(name) == Table(files[name], NEW_ENTRY)
    {
      registry.Reset();
    }
  }

  /** Reads the one row that starts at an offset. */
  method ReadRowAtOffset(f: File, offset: int) returns (fields: Result<seq<string>>)
    ensures fields == if offset < 0 then Err else ReadAt(f, offset)
  {
    if offset < 0 || offset >= |f| {
      return Err;
    }
    var line, _ := ReadLine(f, offset);
    if line == "" {
      return Err;
    }
    fields := Csv.ParseLine(line);
  }

  lemma ScanIsScanSelect(f: File, all: bool, columns: seq<string>, where: Option<Condition>, schema: Schema)
    requires SelectPlan(all, columns, schema).Some? && WhereKnown(where, schema) && !ById(where)
    ensures var plan := SelectPlan(all, columns, schema).value;
            var rows := if f == "" then None else ScanResult(f, LineEnd(f, 0, 0), 1, where, schema, plan.indexes);
            ScanSelect(f, all, columns, where, schema) == if rows.None? then Failed else Rows(plan.headers, rows.value)
  {
  }

  lemma FindUsable(e: Entry, f: File, id: int, memory: bool)
    requires e.loaded ==> e.tree.Sound?
    ensures var r := IndexSpec.FindRow(e, f, id, memory).0; r.loaded ==> r.tree.Sound?
  {
  }

  lemma NextIdUsable(e: Entry, f: File, memory: bool)
    requires e.loaded ==> e.tree.Sound?
    ensures var r := IndexSpec.NextId(e, f, memory); (r.0.loaded ==> r.0.tree.Sound?) && (r.1.Some? ==> r.0.loaded)
  {
  }

  /** The tree of a coherent entry has one pair for each row once it is loaded. */
  lemma NextIdSize(e: Entry, f: File, memory: bool)
    requires Coherent(e, f) && IndexSpec.NextId(e, f, memory).1.Some?
    ensures var r := IndexSpec.NextId(e, f, memory).0; r.tree.Sound? && |r.tree.pairs| == |RowsOf(f)|
  {
  }

  /** On a loaded entry registering does not depend on a rebuild, and succeeding leaves the tree intact. */
  lemma RegisterUsable(e: Entry, f: File, id: int, offset: int, forced: bool, m1: bool, m2: bool, room: bool)
    requires e.loaded && e.tree.Sound?
    ensures Register(e, f, id, offset, forced, m1, room) == Register(e, f, id, offset, forced, m2, room)
    ensures Register(e, f, id, offset, forced, m1, room).1 ==>
              Register(e, f, id, offset, forced, m1, room).0.tree.Sound?
  {
  }
}
