/**
 * Inputs at which the code falls short of the plain expectation; the exact conditions are proved where the code is
 * modelled.
 */
module Witnesses {
  import opened Wrappers
  import opened Ast
  import opened TableFile
  import opened IndexSpec
  import opened ExecSpec
  import opened ExecFacts
  import InsertRows
  import Numbers
  import Csv
  import Json

  /** A value of 4096 plain letters. */
  function LongValue(): string {
    seq(4096, _ => 'a')
  }

  lemma LongRow()
    ensures Writable([LongValue()]) && Csv.Encode([LongValue()]) == LongValue() && |LongValue()| > LINE_MAX
  {
  }

  /** The smallest file: a header and no rows. */
  lemma HeaderOnly()
    ensures Scan("a\n") == Ok([]) && RowsOf("a\n") == []
  {
    var f := "a\n";
    assert LineEnd(f, 0, 0) == 2;
    assert ScanFrom(f, 2) == Ok([]);
  }

  /** A row that is too long is not what a scan finds after the append. */
  lemma LongRowIsSplit()
    ensures Scan(Appended("a\n", [LongValue()]))
         != Plus(Scan("a\n"), Row(|Terminated("a\n")|, Csv.NormalRow([LongValue()])))
  {
    hide Scan, LongValue, Appended;
    HeaderOnly();
    LongRow();
    AppendScan("a\n", [LongValue()]);
  }

  /** One letter less, and the row is found. */
  lemma FullLineIsFound()
    ensures var value := seq(4095, _ => 'a');
            Scan(Appended("a\n", [value])) == Ok([Row(2, [value])])
  {
    var value := seq(4095, _ => 'a');
    FullLine(value);
    hide Scan, Appended, Csv.Encode;
    HeaderOnly();
    AppendScan("a\n", [value]);
    assert |Terminated("a\n")| == 2 && [] + [Row(2, [value])] == [Row(2, [value])];
  }

  lemma FullLine(value: string)
    requires |value| == 4095 && forall i | 0 <= i < |value| :: value[i] == 'a'
    ensures Writable([value]) && |Csv.Encode([value])| <= LINE_MAX && Csv.NormalRow([value]) == [value]
  {
    assert !Csv.NeedsQuotes(value);
    Csv.NormalExact(value);
  }

  /** An index that was up to date is not after registering that row. */
  lemma LongRowLeavesIndex()
    ensures var e := LoadedEntry([]);
            Coherent(e, "a\n")
            && !Coherent(Register(e, Appended("a\n", [LongValue()]), 1, 2, false, true, true).0,
                 Appended("a\n", [LongValue()]))
  {
    hide Scan, LongValue, Appended, Register;
    HeaderOnly();
    LongRow();
    assert LoadedEntry([]).nextId == 1 && |Terminated("a\n")| == 2;
    RegisterCoherent(LoadedEntry([]), "a\n", [LongValue()], true);
  }

  /** One column, then a row of one field and a row of two. */
  ghost const RAGGED := Appended(Appended("a\n", ["x"]), ["y", "z"])

  lemma RaggedRows()
    ensures Scan(RAGGED).Ok? && |RowsOf(RAGGED)| == 2
    ensures |RowsOf(RAGGED)[0].fields| == 1 && |RowsOf(RAGGED)[1].fields| == 2
  {
    hide Scan, Appended, Csv.NormalRow;
    HeaderOnly();
    ShortRows();
    var first := Appended("a\n", ["x"]);
    AppendScan("a\n", ["x"]);
    AppendedNonEmpty("a\n", ["x"]);
    AppendScan(first, ["y", "z"]);
    NormalRowLength(["x"]);
    NormalRowLength(["y", "z"]);
  }

  lemma ShortRows()
    ensures Writable(["x"]) && |Csv.Encode(["x"])| <= LINE_MAX
    ensures Writable(["y", "z"]) && |Csv.Encode(["y", "z"])| <= LINE_MAX
  {
    hide Csv.Escape;
    ShortField("x");
    ShortField("y");
    ShortField("z");
    assert ["y", "z"][1..] == ["z"];
  }

  lemma ShortField(v: string)
    requires |v| == 1 && v[0] != '"'
    ensures |Csv.Escape(v)| <= 3
  {
    Csv.DoubledLength(v);
    assert Csv.Quotes(v[1..]) == 0;
  }

  /** On that file `WHERE id = 1` finds the first row through the index, while the scan refuses the file. */
  lemma RaggedDiffers(t: Table)
    requires t.file == RAGGED && Ready(t)
    ensures var schema, s := Schema("t", ["a"]), Select("t", true, [], Some(Condition("id", Numbers.IntText(1))));
            && Execute(s, schema, NO_FAULTS, t).0 != ScanSelect(t.file, s.all, s.columns, s.where, schema)
            && ScanSelect(t.file, s.all, s.columns, s.where, schema) == Failed
  {
    hide Execute, Scan, Filter, Numbers.IntText, Numbers.ParseInt;
    var schema, s := Schema("t", ["a"]), Select("t", true, [], Some(Condition("id", Numbers.IntText(1))));
    RaggedRows();
    Numbers.IntRoundTrip(1);
    FastEqualsScan(s, schema, NO_FAULTS, t);
  }

  /** A plain field with a leading space comes back without it. */
  lemma SpaceIsLost()
    ensures Csv.Parse(Csv.Encode([" x"])) != Ok([" x"])
  {
    hide Csv.Parse, Csv.Encode;
    Csv.ExactRoundTrip([" x"]);
    assert Csv.LosesSpace([" x"][0]);
  }

  /** A column named twice passes validation and is refused when the row is built. */
  lemma TwiceNamed()
    ensures var schema := Schema("t", ["a"]);
            InsertRows.Valid(["a", "a"], ["x", "y"], schema) && !InsertRows.Insertable(["a", "a"], ["x", "y"], schema)
  {
    assert ["a", "a"][0] == ["a", "a"][1];
  }

  /** A `sql` member that is not a string spoils the object. */
  lemma SqlIsNull()
    ensures Json.Verdict([Json.Member("sql", "sql", Json.Bare("null"), "", "", "", "")], None) == Json.Malformed
  {
  }
}
