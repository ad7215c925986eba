/** From an answer to the printed table: what a SELECT returns is rectangular, so its table is aligned. */
module Answers {
  import opened Wrappers
  import opened Ast
  import opened TableFile
  import opened IndexSpec
  import opened ExecSpec
  import opened ExecFacts
  import Layout
  import Numbers
  import Utf8

  lemma PlanWidth(all: bool, columns: seq<string>, schema: Schema)
    ensures SelectPlan(all, columns, schema).Some? ==>
              |SelectPlan(all, columns, schema).value.headers| == |SelectPlan(all, columns, schema).value.indexes|
  {
  }

  lemma {:induction false} FilterWidths(rows: seq<Row>, first: int, where: Option<Condition>, schema: Schema,
                                        indexes: seq<int>)
    requires WhereKnown(where, schema) && WidthsMatch(rows, |schema.columns|) && IndexesOk(indexes, |schema.columns|)
    ensures forall r | r in Filter(rows, first, where, schema, indexes) :: |r| == |indexes|
    decreases |rows|
  {
    hide Matches, Project;
    if rows != [] {
      ProjectWidth(rows[0].fields, indexes, first);
      FilterWidths(rows[1..], first + 1, where, schema, indexes);
    }
  }

  /** Every row of an answer has one cell for each header, in whatever state the table is. */
  lemma AnswerRectangular(s: Statement, schema: Schema, x: Faults, t: Table)
    requires s.Select? && Execute(s, schema, x, t).0.Rows?
    ensures Layout.Rectangular(Execute(s, schema, x, t).0.headers, Execute(s, schema, x, t).0.rows)
  {
    hide Execute, SelectPlan, Filter, Project, Scan, ReadAt, FindRow, IndexesOk;
    RunSelect(s, schema, x, t);
    PlanWidth(s.all, s.columns, schema);
    if ById(s.where) {
      IdAnswerWidths(s, schema, x, t);
    } else {
      ScanWidths(s, schema, t.file);
    }
  }

  lemma ScanWidths(s: Statement, schema: Schema, f: File)
    requires s.Select? && ScanSelect(f, s.all, s.columns, s.where, schema).Rows?
    ensures Layout.Rectangular(ScanSelect(f, s.all, s.columns, s.where, schema).headers,
                               ScanSelect(f, s.all, s.columns, s.where, schema).rows)
  {
    hide SelectPlan, Filter, Scan;
    PlanWidth(s.all, s.columns, schema);
    FilterWidths(Scan(f).value, 1, s.where, schema, SelectPlan(s.all, s.columns, schema).value.indexes);
  }

  lemma IdAnswerWidths(s: Statement, schema: Schema, x: Faults, t: Table)
    requires s.Select? && ById(s.where) && SelectPlan(s.all, s.columns, schema).Some?
    requires ByIdResult(s, schema, x, t).0.Rows?
    ensures Layout.Rectangular(ByIdResult(s, schema, x, t).0.headers, ByIdResult(s, schema, x, t).0.rows)
  {
    hide SelectPlan, Project, ReadAt, FindRow;
    var plan, k := SelectPlan(s.all, s.columns, schema).value, Numbers.ParseInt(s.where.value.value);
    PlanWidth(s.all, s.columns, schema);
    if k.Some? {
      var r := FindRow(t.entry, t.file, k.value, x.memory);
      if r.1.Some? && r.1.value.Some? && r.1.value.value >= 0 {
        var row := ReadAt(t.file, r.1.value.value);
        if row.Ok? && |row.value| == |schema.columns| {
          ProjectWidth(row.value, plan.indexes, k.value);
        }
      }
    }
  }

  /** Every line of the table printed for an answer has the same display width. */
  lemma AnswerAligned(s: Statement, schema: Schema, x: Faults, t: Table, k: nat)
    requires s.Select? && Execute(s, schema, x, t).0.Rows?
    ensures var r := Execute(s, schema, x, t).0;
            && Layout.Rectangular(r.headers, r.rows)
            && (k < |Layout.TableLines(r.headers, r.rows)| ==>
                  Utf8.Width(Layout.TableLines(r.headers, r.rows)[k])
                  == Layout.Edge(Layout.Widths(r.headers, r.rows), |r.headers|))
  {
    hide Execute, Layout.TableLines, Layout.Widths, Layout.Edge, Utf8.Width;
    AnswerRectangular(s, schema, x, t);
    var r := Execute(s, schema, x, t).0;
    if k < |Layout.TableLines(r.headers, r.rows)| {
      Layout.TableAligned(r.headers, r.rows, k);
    }
  }
}
