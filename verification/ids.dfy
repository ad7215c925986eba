/** Registered ids only grow, for rows of any length and with any faults. */
module Ids {
  import opened Ast
  import opened Pairs
  import opened TableFile
  import opened IndexSpec
  import opened ExecSpec
  import opened ExecFacts
  import InsertRows

  /** The next id of the table will be above `floor`, whether it comes from the index or from a rebuild. */
  ghost predicate IdFloor(t: Table, floor: int) {
    && t.file != "" && Tidy(t.entry)
    && (t.entry.loaded ==> t.entry.nextId > floor)
    && (Scan(t.file).Ok? ==> |RowsOf(t.file)| >= floor && (t.entry.loaded ==> |RowsOf(t.file)| + 1 >= t.entry.nextId))
  }

  lemma ReadyFloor(t: Table)
    requires Ready(t)
    ensures IdFloor(t, 0)
  {
    CoherentIsTidy(t.entry, t.file);
  }

  lemma LowerFloor(t: Table, floor: int, lower: int)
    requires IdFloor(t, floor) && lower <= floor
    ensures IdFloor(t, lower)
  {
  }

  lemma LoadedFloor(t: Table, floor: int)
    requires IdFloor(t, floor) && (t.entry.loaded || Scan(t.file).Ok?)
    ensures IdFloor(t.(entry := Loaded(t)), floor) && Loaded(t).loaded && Loaded(t).nextId > floor
  {
    LoadedIsTidy(RowsOf(t.file));
    NextOfLoaded(RowsOf(t.file));
  }

  lemma EmptyFloor(t: Table, floor: int)
    requires IdFloor(t, floor)
    ensures IdFloor(t.(entry := NEW_ENTRY), floor)
  {
  }

  lemma SelectFloor(s: Statement, schema: Schema, x: Faults, t: Table, floor: int)
    requires s.Select? && IdFloor(t, floor)
    ensures IdFloor(Execute(s, schema, x, t).1, floor)
  {
    hide Execute, Scan, IdFloor, LoadedEntry, ReadAt, Project, SelectPlan;
    RunSelect(s, schema, x, t);
    EmptyFloor(t, floor);
    if t.entry.loaded || Scan(t.file).Ok? {
      LoadedFloor(t, floor);
    }
  }

  /** An append leaves at least one more row than before, if it leaves a file that scans. */
  lemma AppendedFloor(t: Table, row: seq<string>, floor: int)
    requires IdFloor(t, floor) && t.entry.loaded && Writable(row)
    ensures IdFloor(Table(Appended(t.file, row), NEW_ENTRY), floor)
    ensures IdFloor(Table(Appended(t.file, row), Extended(t.entry, |Terminated(t.file)|)), t.entry.nextId)
  {
    hide Scan, Appended, Terminated, Extended, Below, Writable;
    AppendedNonEmpty(t.file, row);
    RegisterTidy(t.entry, t.file, |Terminated(t.file)|, false, true, true);
    ExtendedNext(t.entry, |Terminated(t.file)|);
    if Scan(Appended(t.file, row)).Ok? {
      AppendGrows(t.file, row);
    }
  }

  lemma ExtendedNext(e: Entry, offset: int)
    requires e.tree.Sound?
    ensures Extended(e, offset).loaded && Extended(e, offset).nextId == e.nextId + 1
  {
  }

  lemma InsertFloor(s: Statement, schema: Schema, x: Faults, t: Table, floor: int)
    requires s.Insert? && IdFloor(t, floor) && SchemaOk(schema) && CStrings(s)
    ensures var r := Execute(s, schema, x, t);
            if r.0.Inserted? then r.0.id > floor && IdFloor(r.1, r.0.id) else IdFloor(r.1, floor)
  {
    hide Execute, Scan, Appended, Terminated, Extended, Below, LoadedEntry, InsertRows.RowFor, InsertRows.DistinctNames;
    InsertComposes(s, schema, x, t);
    EmptyFloor(t, floor);
    if t.entry.loaded || Scan(t.file).Ok? {
      LoadedFloor(t, floor);
      if InsertRows.Insertable(s.columns, s.values, schema) {
        RowWritable(s.columns, s.values, schema);
        AppendedFloor(t.(entry := Loaded(t)), InsertRows.RowFor(s.columns, s.values, schema), floor);
      }
    }
  }

  /** Every statement keeps the floor, and an INSERT that registers a row raises it to the new id. */
  lemma ExecuteFloor(s: Statement, schema: Schema, x: Faults, t: Table, floor: int)
    requires IdFloor(t, floor) && SchemaOk(schema) && CStrings(s)
    ensures var r := Execute(s, schema, x, t);
            if r.0.Inserted? then r.0.id > floor && IdFloor(r.1, r.0.id) else IdFloor(r.1, floor)
  {
    hide Execute, IdFloor, CStrings;
    if s.Insert? {
      InsertFloor(s, schema, x, t, floor);
    } else {
      SelectFloor(s, schema, x, t, floor);
      SelectInsertsNothing(s, schema, x, t);
    }
  }
}
