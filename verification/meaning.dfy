/** What statements mean, said outright: which INSERTs are accepted, and which rows and cells a SELECT shows. */
module Meaning {
  import opened Wrappers
  import opened Ast
  import opened Text
  import opened TableFile
  import opened IndexSpec
  import opened ExecSpec
  import opened ExecFacts
  import InsertRows
  import Numbers
  import Csv

  // ---- INSERT ----

  /**
   * On a ready, readable table an INSERT without faults registers a row if and only if it gives each of its columns one
   * value, names no column twice, names only columns of the table and not `id`, and no value holds a line break.
   */
  lemma InsertAccepted(s: Statement, schema: Schema, t: Table)
    requires s.Insert? && Ready(t) && Scan(t.file).Ok?
    ensures Execute(s, schema, NO_FAULTS, t).0.Inserted?
       <==> && |s.columns| == |s.values|
            && (forall i, j | 0 <= i < j < |s.columns| :: s.columns[i] != s.columns[j])
            && (forall i | 0 <= i < |s.columns| :: s.columns[i] in schema.columns && s.columns[i] != "id")
            && (forall i | 0 <= i < |s.values| :: '\n' !in s.values[i] && '\r' !in s.values[i])
  {
    hide Execute, Scan, Coherent;
    if InsertRows.Insertable(s.columns, s.values, schema) {
      InsertSucceeds(s, schema, NO_FAULTS, t);
    } else {
      ExecuteAppends(s, schema, NO_FAULTS, t);
    }
    assert InsertRows.Insertable(s.columns, s.values, schema)
      <==> && |s.columns| == |s.values|
           && (forall i, j | 0 <= i < j < |s.columns| :: s.columns[i] != s.columns[j])
           && (forall i | 0 <= i < |s.columns| :: s.columns[i] in schema.columns && s.columns[i] != "id")
           && (forall i | 0 <= i < |s.values| :: '\n' !in s.values[i] && '\r' !in s.values[i]);
  }

  /** `p` is the first place of a name in a list. */
  ghost predicate FirstAt(list: seq<string>, name: string, p: nat) {
    p < |list| && list[p] == name && forall i | 0 <= i < p :: list[i] != name
  }

  lemma FirstIsIndex(list: seq<string>, name: string, p: nat)
    requires FirstAt(list, name, p)
    ensures InsertRows.IndexOf(list, name) == p
  {
    var i := InsertRows.IndexOf(list, name);
    assert list[p] in list && forall k | 0 <= k < i :: list[..i][k] == list[k];
  }

  lemma IndexIsFirst(list: seq<string>, name: string)
    requires name in list
    ensures InsertRows.IndexOf(list, name) >= 0 && FirstAt(list, name, InsertRows.IndexOf(list, name))
  {
    var i := InsertRows.IndexOf(list, name);
    assert forall k | 0 <= k < i :: list[..i][k] == list[k];
  }

  /** No white space at either end. */
  ghost predicate Tight(value: string) {
    value != "" ==> !IsSpace(value[0]) && !IsSpace(value[|value| - 1])
  }

  lemma TightIsNormal(value: string)
    requires Tight(value)
    ensures Csv.Normal(value) == value
  {
    Csv.NormalExact(value);
  }

  /**
   * What a registered row that fits the line buffer is afterwards: the last row of the file, with as many cells as the
   * table has columns. The first column of a name that the statement gives holds its value, exactly unless that has
   * white space at an end, and every other cell is empty.
   */
  lemma InsertStores(s: Statement, schema: Schema, x: Faults, t: Table)
    requires s.Insert? && SchemaOk(schema) && Ready(t) && CStrings(s) && Fits(s, schema)
    requires Execute(s, schema, x, t).0.Inserted?
    ensures |s.columns| == |s.values|
    ensures var rows, rows' := RowsOf(t.file), RowsOf(Execute(s, schema, x, t).1.file);
            && |rows'| == |rows| + 1 && rows'[..|rows|] == rows
            && |rows'[|rows|].fields| == |schema.columns|
            && (forall m, p: nat | 0 <= m < |s.columns| && FirstAt(schema.columns, s.columns[m], p) ::
                  Tight(s.values[m]) ==> rows'[|rows|].fields[p] == s.values[m])
            && (forall p: nat | p < |schema.columns|
                           && (schema.columns[p] !in s.columns || !FirstAt(schema.columns, schema.columns[p], p)) ::
                  rows'[|rows|].fields[p] == "")
  {
    hide Execute, Scan, Coherent, Csv.Normal, InsertRows.RowFor, CStrings, Fits;
    InsertedRow(s, schema, x, t);
    ExecuteAppends(s, schema, x, t);
    InsertRows.RowHolds(s.columns, s.values, schema);
    var row := InsertRows.RowFor(s.columns, s.values, schema);
    forall m, p: nat | 0 <= m < |s.columns| && FirstAt(schema.columns, s.columns[m], p) && Tight(s.values[m])
      ensures Csv.NormalRow(row)[p] == s.values[m]
    {
      FirstIsIndex(schema.columns, s.columns[m], p);
      TightIsNormal(s.values[m]);
    }
    forall p: nat | p < |schema.columns|
                    && (schema.columns[p] !in s.columns || !FirstAt(schema.columns, schema.columns[p], p))
      ensures Csv.NormalRow(row)[p] == ""
    {
      if InsertRows.IndexOf(schema.columns, schema.columns[p]) == p {
        IndexIsFirst(schema.columns, schema.columns[p]);
      }
      TightIsNormal("");
    }
  }

  // ---- SELECT ----

  /** The select list and the condition name known columns; a list is not empty. */
  ghost predicate Askable(all: bool, columns: seq<string>, where: Option<Condition>, schema: Schema) {
    && (all || (columns != [] && forall i | 0 <= i < |columns| :: columns[i] == "id" || columns[i] in schema.columns))
    && (where.Some? ==> where.value.column == "id" || where.value.column in schema.columns)
  }

  /** A row meets a condition on a column if its cell in the first column of that name is the given text. */
  ghost predicate Meets(where: Option<Condition>, schema: Schema, fields: seq<string>) {
    where.Some? ==>
      exists p: nat :: FirstAt(schema.columns, where.value.column, p) && p < |fields| && fields[p] == where.value.value
  }

  /** The output of one row: all its cells, or for each listed name the row's number or its cell of that name. */
  ghost predicate Shows(out: seq<string>, all: bool, columns: seq<string>, schema: Schema, fields: seq<string>,
                        id: int) {
    if all then out == fields
    else
      && |out| == |columns|
      && forall m | 0 <= m < |columns| ::
           if columns[m] == "id" then out[m] == Numbers.IntText(id)
           else exists p: nat :: FirstAt(schema.columns, columns[m], p) && p < |fields| && out[m] == fields[p]
  }

  /** Increasing positions in a list of `n`. */
  ghost predicate Positions(k: seq<nat>, n: nat) {
    (forall i | 0 <= i < |k| :: k[i] < n) && forall i, j | 0 <= i < j < |k| :: k[i] < k[j]
  }

  lemma AskableIsPlanned(all: bool, columns: seq<string>, where: Option<Condition>, schema: Schema)
    ensures Askable(all, columns, where, schema)
       <==> SelectPlan(all, columns, schema).Some? && WhereKnown(where, schema)
    ensures SelectPlan(all, columns, schema).Some? ==>
              SelectPlan(all, columns, schema).value.headers == if all then schema.columns else columns
  {
  }

  lemma {:induction false} ProjectAt(fields: seq<string>, indexes: seq<int>, id: int, m: nat)
    requires IndexesOk(indexes, |fields|) && m < |indexes|
    ensures m < |Project(fields, indexes, id)|
    ensures Project(fields, indexes, id)[m]
         == if indexes[m] == INTERNAL_ID then Numbers.IntText(id) else fields[indexes[m]]
  {
    hide Numbers.IntText;
    if m > 0 {
      ProjectAt(fields, indexes[1..], id, m - 1);
    }
  }

  lemma ProjectShows(all: bool, columns: seq<string>, schema: Schema, fields: seq<string>, id: int)
    requires SelectPlan(all, columns, schema).Some? && |fields| == |schema.columns|
    ensures Shows(Project(fields, SelectPlan(all, columns, schema).value.indexes, id), all, columns, schema, fields, id)
  {
    hide Project, Numbers.IntText, FirstAt;
    var indexes := SelectPlan(all, columns, schema).value.indexes;
    var out := Project(fields, indexes, id);
    ProjectWidth(fields, indexes, id);
    forall m | 0 <= m < |indexes|
      ensures out[m] == if indexes[m] == INTERNAL_ID then Numbers.IntText(id) else fields[indexes[m]]
    {
      ProjectAt(fields, indexes, id, m);
    }
    if all {
      assert out == fields;
    } else {
      forall m | 0 <= m < |columns| && columns[m] != "id"
        ensures exists p: nat :: FirstAt(schema.columns, columns[m], p) && p < |fields| && out[m] == fields[p]
      {
        IndexIsFirst(schema.columns, columns[m]);
        assert out[m] == fields[InsertRows.IndexOf(schema.columns, columns[m])];
      }
    }
  }

  lemma MatchMeets(where: Option<Condition>, schema: Schema, fields: seq<string>, id: int)
    requires WhereKnown(where, schema) && !ById(where) && |fields| == |schema.columns|
    ensures Matches(where, schema, fields, id) <==> Meets(where, schema, fields)
  {
    if where.Some? {
      IndexIsFirst(schema.columns, where.value.column);
      var p := InsertRows.IndexOf(schema.columns, where.value.column);
      if Meets(where, schema, fields) {
        var q: nat :| FirstAt(schema.columns, where.value.column, q) && q < |fields| && fields[q] == where.value.value;
        FirstIsIndex(schema.columns, where.value.column, q);
      }
    }
  }

  /** Which rows a scan keeps, and what it makes of them. */
  lemma {:induction false} FilterKeeps(rows: seq<Row>, first: int, where: Option<Condition>, schema: Schema,
                                       indexes: seq<int>)
    returns (k: seq<nat>)
    requires WhereKnown(where, schema) && !ById(where) && WidthsMatch(rows, |schema.columns|)
    requires IndexesOk(indexes, |schema.columns|)
    ensures Positions(k, |rows|) && |Filter(rows, first, where, schema, indexes)| == |k|
    ensures forall i | 0 <= i < |rows| :: i in k <==> Meets(where, schema, rows[i].fields)
    ensures forall i | 0 <= i < |k| ::
              Filter(rows, first, where, schema, indexes)[i] == Project(rows[k[i]].fields, indexes, first + k[i])
    decreases |rows|
  {
    hide Matches, Meets, Project, Positions, IndexesOk;
    if rows == [] {
      k := [];
      NoPositions();
    } else {
      var rest := FilterKeeps(rows[1..], first + 1, where, schema, indexes);
      MatchMeets(where, schema, rows[0].fields, first);
      var hit := Meets(where, schema, rows[0].fields);
      k := (if hit then [0] else []) + Shifted(rest);
      ShiftedKeeps(rows, rest, k, hit);
      FilterStep(rows, first, where, schema, indexes, rest, k);
    }
  }

  lemma FilterStep(rows: seq<Row>, first: int, where: Option<Condition>, schema: Schema, indexes: seq<int>,
                   rest: seq<nat>, k: seq<nat>)
    requires WhereKnown(where, schema) && WidthsMatch(rows, |schema.columns|) && IndexesOk(indexes, |schema.columns|)
    requires rows != [] && Positions(rest, |rows| - 1)
    requires k == (if Matches(where, schema, rows[0].fields, first) then [0] else []) + Shifted(rest)
    requires var f := Filter(rows[1..], first + 1, where, schema, indexes);
             |f| == |rest| && forall i | 0 <= i < |rest| ::
               f[i] == Project(rows[1..][rest[i]].fields, indexes, first + 1 + rest[i])
    ensures var f := Filter(rows, first, where, schema, indexes);
            && |f| == |k| && (forall i | 0 <= i < |k| :: k[i] < |rows|)
            && forall i | 0 <= i < |k| :: f[i] == Project(rows[k[i]].fields, indexes, first + k[i])
  {
    hide Matches, Project;
    var hit := Matches(where, schema, rows[0].fields, first);
    var n := if hit then 1 else 0;
    var f := Filter(rows, first, where, schema, indexes);
    forall i | 0 <= i < |k| ensures f[i] == Project(rows[k[i]].fields, indexes, first + k[i]) {
      if i >= n {
        assert f[i] == Filter(rows[1..], first + 1, where, schema, indexes)[i - n];
      }
    }
  }

  lemma NoPositions()
    ensures Positions([], 0)
  {
  }

  ghost function Shifted(k: seq<nat>): seq<nat> {
    seq(|k|, i requires 0 <= i < |k| => k[i] + 1)
  }

  lemma ShiftedKeeps(rows: seq<Row>, rest: seq<nat>, k: seq<nat>, hit: bool)
    requires rows != [] && Positions(rest, |rows| - 1) && k == (if hit then [0] else []) + Shifted(rest)
    ensures Positions(k, |rows|) && (0 in k <==> hit) && forall i: nat :: i + 1 in k <==> i in rest
  {
    forall i: nat ensures i + 1 in k <==> i in rest {
      if i in rest {
        var j :| 0 <= j < |rest| && rest[j] == i;
        assert Shifted(rest)[j] == i + 1;
      }
    }
  }

  /** The file can be read and its rows have as many cells as the table has columns. */
  ghost predicate Readable(f: File, schema: Schema) {
    Scan(f).Ok? && forall i | 0 <= i < |RowsOf(f)| :: |RowsOf(f)[i].fields| == |schema.columns|
  }

  /** A SELECT that is not by id fails exactly if it asks for unknown columns or the file is not readable. */
  lemma SelectRefused(s: Statement, schema: Schema, x: Faults, t: Table)
    requires s.Select? && (s.where.Some? ==> s.where.value.column != "id")
    ensures Execute(s, schema, x, t).0 == Failed
       <==> !(Askable(s.all, s.columns, s.where, schema) && Readable(t.file, schema))
  {
    hide Execute, Filter, SelectPlan, Askable, Scan, ById;
    assert !ById(s.where) by {
      NotById(s.where);
    }
    SelectComposes(s, schema, x, t);
    AskableIsPlanned(s.all, s.columns, s.where, schema);
    assert Scan(t.file).Ok? ==> (WidthsMatch(RowsOf(t.file), |schema.columns|) <==> Readable(t.file, schema));
  }

  lemma NotById(where: Option<Condition>)
    requires where.Some? ==> where.value.column != "id"
    ensures !ById(where)
  {
  }

  /**
   * What any other SELECT answers: the rows that meet its condition, all of them and no others, in file order, each
   * with the cells it asks for; the headers are the names it lists, or those of the table.
   */
  lemma SelectAnswers(s: Statement, schema: Schema, x: Faults, t: Table) returns (k: seq<nat>)
    requires s.Select? && (s.where.Some? ==> s.where.value.column != "id")
    requires Askable(s.all, s.columns, s.where, schema) && Readable(t.file, schema)
    ensures Positions(k, |RowsOf(t.file)|)
    ensures forall i | 0 <= i < |RowsOf(t.file)| :: i in k <==> Meets(s.where, schema, RowsOf(t.file)[i].fields)
    ensures var answer := Execute(s, schema, x, t).0;
            && answer.Rows? && answer.headers == (if s.all then schema.columns else s.columns)
            && |answer.rows| == |k|
            && forall i | 0 <= i < |k| ::
                 Shows(answer.rows[i], s.all, s.columns, schema, RowsOf(t.file)[k[i]].fields, k[i] + 1)
    ensures Execute(s, schema, x, t).1 == t
  {
    hide Execute, Filter, SelectPlan, Askable, Scan, Meets, Shows, Project;
    SelectComposes(s, schema, x, t);
    AskableIsPlanned(s.all, s.columns, s.where, schema);
    var rows, indexes := RowsOf(t.file), SelectPlan(s.all, s.columns, schema).value.indexes;
    k := FilterKeeps(rows, 1, s.where, schema, indexes);
    forall i | 0 <= i < |k|
      ensures Shows(Project(rows[k[i]].fields, indexes, 1 + k[i]), s.all, s.columns, schema, rows[k[i]].fields,
                    k[i] + 1)
    {
      ProjectShows(s.all, s.columns, schema, rows[k[i]].fields, k[i] + 1);
    }
  }

  /**
   * What a SELECT by id answers on a ready table whose index is loaded or can be built: the row of that number with the
   * cells asked for, no row if there is none of that number, and a failure for a row of another width, a list of
   * unknown columns, a condition value that is no number, or a file that cannot be read.
   */
  lemma SelectByIdAnswers(s: Statement, schema: Schema, x: Faults, t: Table)
    requires s.Select? && s.where.Some? && s.where.value.column == "id" && Ready(t) && (t.entry.loaded || x.memory)
    ensures var answer, k := Execute(s, schema, x, t).0, Numbers.ParseInt(s.where.value.value);
            if !Askable(s.all, s.columns, s.where, schema) || k.None? || Scan(t.file).Err? then answer == Failed
            else
              var rows, headers := RowsOf(t.file), if s.all then schema.columns else s.columns;
              if !(1 <= k.value <= |rows|) then answer == Rows(headers, [])
              else if |rows[k.value - 1].fields| != |schema.columns| then answer == Failed
              else
                && answer.Rows? && answer.headers == headers && |answer.rows| == 1
                && Shows(answer.rows[0], s.all, s.columns, schema, rows[k.value - 1].fields, k.value)
  {
    hide Execute, SelectPlan, Askable, Scan, Shows, Project, Coherent, Numbers.ParseInt;
    AskableIsPlanned(s.all, s.columns, s.where, schema);
    SelectByIdComposes(s, schema, x, t);
    var plan, k := SelectPlan(s.all, s.columns, schema), Numbers.ParseInt(s.where.value.value);
    if plan.Some? && k.Some? && Scan(t.file).Ok? {
      var rows := RowsOf(t.file);
      if 1 <= k.value <= |rows| && |rows[k.value - 1].fields| == |schema.columns| {
        ProjectShows(s.all, s.columns, schema, rows[k.value - 1].fields, k.value);
      }
    }
  }
}
