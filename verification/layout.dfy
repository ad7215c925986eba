/** The text table that a SELECT prints. */
module Layout {
  import opened Utf8

  type Row = seq<string>

  function Repeat(c: char, n: int): string {
    if n <= 0 then "" else Repeat(c, n - 1) + [c]
  }

  /** One padded cell and the bar that closes it. */
  function Cell(text: string, width: nat): string {
    " " + (text + (Repeat(' ', width - Width(text)) + " |"))
  }

  /** A data line up to column `n`. */
  function RowPrefix(row: Row, widths: seq<nat>, n: nat): string
    requires n <= |row| && n <= |widths|
  {
    if n == 0 then "|" else RowPrefix(row, widths, n - 1) + Cell(row[n - 1], widths[n - 1])
  }

  /** A border up to column `n`. */
  function BorderPrefix(widths: seq<nat>, n: nat): string
    requires n <= |widths|
  {
    if n == 0 then "+" else BorderPrefix(widths, n - 1) + (Repeat('-', widths[n - 1] + 2) + "+")
  }

  predicate Rectangular(headers: Row, rows: seq<Row>) {
    forall r | r in rows :: |r| == |headers|
  }

  /** The widest of the header and the cells of column `i`. */
  function ColumnWidth(headers: Row, rows: seq<Row>, i: nat): nat
    requires i < |headers| && Rectangular(headers, rows)
  {
    if rows == [] then Width(headers[i])
    else
      var last := rows[|rows| - 1];
      var before := ColumnWidth(headers, rows[..|rows| - 1], i);
      if Width(last[i]) > before then Width(last[i]) else before
  }

  /** It bounds the column and is no larger than it must be. */
  lemma {:induction false} ColumnWidthIsMaximum(headers: Row, rows: seq<Row>, i: nat)
    requires i < |headers| && Rectangular(headers, rows)
    ensures Width(headers[i]) <= ColumnWidth(headers, rows, i)
    ensures forall r | r in rows :: Width(r[i]) <= ColumnWidth(headers, rows, i)
    ensures ColumnWidth(headers, rows, i) == Width(headers[i]) || exists r | r in rows ::
              ColumnWidth(headers, rows, i) == Width(r[i])
  {
    hide Width;
    if rows != [] {
      ColumnWidthIsMaximum(headers, rows[..|rows| - 1], i);
    }
  }

  function Widths(headers: Row, rows: seq<Row>): (widths: seq<nat>)
    requires Rectangular(headers, rows)
    ensures |widths| == |headers|
  {
    seq(|headers|, i requires 0 <= i < |headers| => ColumnWidth(headers, rows, i))
  }

  function HeadLines(headers: Row, widths: seq<nat>): seq<string>
    requires |headers| == |widths|
  {
    var border := BorderPrefix(widths, |widths|);
    [border, RowPrefix(headers, widths, |headers|), border]
  }

  function TableLines(headers: Row, rows: seq<Row>): seq<string>
    requires Rectangular(headers, rows)
  {
    var widths := Widths(headers, rows);
    HeadLines(headers, widths) + RowLines(rows, widths) + [BorderPrefix(widths, |widths|)]
  }

  function RowLines(rows: seq<Row>, widths: seq<nat>): (lines: seq<string>)
    requires forall r | r in rows :: |r| == |widths|
    ensures |lines| == |rows|
  {
    if rows == [] then [] else RowLines(rows[..|rows| - 1], widths) + [RowPrefix(rows[|rows| - 1], widths, |widths|)]
  }

  function Joined(lines: seq<string>): string {
    if lines == [] then "" else Joined(lines[..|lines| - 1]) + (lines[|lines| - 1] + "\n")
  }

  // ---- printing ----

  method ComputeTableWidths(headers: Row, rows: seq<Row>, widths: array<nat>)
    requires Rectangular(headers, rows) && widths.Length == |headers|
    modifies widths
    ensures widths[..] == Widths(headers, rows)
  {
    for column := 0 to |headers|
      invariant forall i | 0 <= i < column :: widths[i] == ColumnWidth(headers, [], i)
    {
      widths[column] := DisplayWidth(headers[column]);
    }
    assert rows[..0] == [];
    for index := 0 to |rows|
      invariant Rectangular(headers, rows[..index])
      invariant forall i | 0 <= i < |headers| :: widths[i] == ColumnWidth(headers, rows[..index], i)
    {
      hide ColumnWidth;
      assert rows[..index + 1] == rows[..index] + [rows[index]];
      WidenColumns(headers, rows[..index], rows[index], widths);
    }
    assert rows[..|rows|] == rows;
  }

  /** One row of the scan over all cells. */
  method WidenColumns(headers: Row, ghost before: seq<Row>, row: Row, widths: array<nat>)
    requires Rectangular(headers, before) && |row| == |headers| == widths.Length
    requires forall i | 0 <= i < |headers| :: widths[i] == ColumnWidth(headers, before, i)
    modifies widths
    ensures forall i | 0 <= i < |headers| :: widths[i] == ColumnWidth(headers, before + [row], i)
  {
    assert (before + [row])[..|before|] == before;
    for column := 0 to |headers|
      invariant forall i | 0 <= i < column :: widths[i] == ColumnWidth(headers, before + [row], i)
      invariant forall i | column <= i < |headers| :: widths[i] == ColumnWidth(headers, before, i)
    {
      var width := DisplayWidth(row[column]);
      if width > widths[column] {
        widths[column] := width;
      }
    }
  }

  method PrintRepeated(out: string, c: char, n: int) returns (out': string)
    ensures out' == out + Repeat(c, n)
  {
    out' := out;
    var left, done := n, 0;
    while left > 0
      invariant left + done == n && done >= 0 && out' == out + Repeat(c, done) && (n > 0 ==> left >= 0)
      invariant (n <= 0 ==> done == 0)
    {
      out', left, done := out' + [c], left - 1, done + 1;
    }
  }

  method PrintTableBorder(out: string, widths: array<nat>) returns (out': string)
    ensures out' == out + BorderPrefix(widths[..], widths.Length) + "\n"
  {
    out' := out + "+";
    for column := 0 to widths.Length
      invariant out' == out + BorderPrefix(widths[..], column)
    {
      out' := PrintRepeated(out', '-', widths[column] + 2);
      out' := out' + "+";
    }
    out' := out' + "\n";
  }

  method PrintTableRow(out: string, row: Row, widths: array<nat>) returns (out': string)
    requires |row| == widths.Length
    ensures out' == out + RowPrefix(row, widths[..], |row|) + "\n"
  {
    out' := out + "|";
    for column := 0 to |row|
      invariant out' == out + RowPrefix(row, widths[..], column)
    {
      out' := out' + " " + row[column];
      var cellWidth := DisplayWidth(row[column]);
      var padding := widths[column] as int - cellWidth as int;
      out' := PrintRepeated(out', ' ', padding);
      out' := out' + " |";
    }
    out' := out' + "\n";
  }

  lemma JoinedSnoc(lines: seq<string>, line: string)
    ensures Joined(lines + [line]) == Joined(lines) + line + "\n"
  {
  }

  lemma JoinedHead(border: string, header: string)
    ensures Joined([border, header, border]) == border + "\n" + header + "\n" + border + "\n"
  {
    var none: seq<string> := [];
    assert Joined(none) == "";
    hide Joined;
    JoinedSnoc(none, border);
    assert none + [border] == [border] && "" + border + "\n" == border + "\n";
    JoinedSnoc([border], header);
    assert [border] + [header] == [border, header];
    JoinedSnoc([border, header], border);
    assert [border, header] + [border] == [border, header, border];
  }

  lemma RowLinesStep(rows: seq<Row>, widths: seq<nat>, n: nat)
    requires n < |rows| && forall r | r in rows :: |r| == |widths|
    ensures RowLines(rows[..n + 1], widths) == RowLines(rows[..n], widths) + [RowPrefix(rows[n], widths, |widths|)]
  {
    assert rows[..n + 1][..n] == rows[..n];
  }

  lemma {:induction false} JoinedConcat(a: seq<string>, b: seq<string>)
    ensures Joined(a + b) == Joined(a) + Joined(b)
  {
    if b == [] {
      assert a + b == a;
    } else {
      assert (a + b)[..|a + b| - 1] == a + b[..|b| - 1];
      JoinedConcat(a, b[..|b| - 1]);
    }
  }

  method PrintTableHead(out: string, headers: Row, widths: array<nat>) returns (out': string)
    requires |headers| == widths.Length
    ensures out' == out + Joined(HeadLines(headers, widths[..]))
  {
    hide Joined, RowPrefix, BorderPrefix;
    out' := PrintTableBorder(out, widths);
    out' := PrintTableRow(out', headers, widths);
    out' := PrintTableBorder(out', widths);
    JoinedHead(BorderPrefix(widths[..], |headers|), RowPrefix(headers, widths[..], |headers|));
  }

  method PrintTableRows(out: string, rows: seq<Row>, widths: array<nat>) returns (out': string)
    requires forall r | r in rows :: |r| == widths.Length
    ensures out' == out + Joined(RowLines(rows, widths[..]))
  {
    hide Joined, RowPrefix, RowLines;
    out' := out;
    ghost var lines: seq<string> := [];
    assert Joined(lines) == "" by {
      JoinedConcat(lines, lines);
      assert lines + lines == lines;
    }
    for index := 0 to |rows|
      invariant lines == RowLines(rows[..index], widths[..]) && out' == out + Joined(lines)
    {
      RowLinesStep(rows, widths[..], index);
      JoinedSnoc(lines, RowPrefix(rows[index], widths[..], widths.Length));
      out' := PrintTableRow(out', rows[index], widths);
      lines := lines + [RowPrefix(rows[index], widths[..], widths.Length)];
    }
    assert rows[..|rows|] == rows;
  }

  method PrintResultTable(out: string, headers: Row, rows: seq<Row>) returns (out': string)
    requires Rectangular(headers, rows)
    ensures out' == out + Joined(TableLines(headers, rows))
  {
    hide Joined, HeadLines, RowPrefix, BorderPrefix, ColumnWidth, RowLines, Widths;
    var widths := new nat[|headers|];
    ComputeTableWidths(headers, rows, widths);
    ghost var top := HeadLines(headers, widths[..]);
    ghost var lines := top + RowLines(rows, widths[..]);
    out' := PrintTableHead(out, headers, widths);
    out' := PrintTableRows(out', rows, widths);
    JoinedConcat(top, RowLines(rows, widths[..]));
    assert out' == out + Joined(lines);
    out' := PrintTableBorder(out', widths);
    JoinedSnoc(lines, BorderPrefix(widths[..], |headers|));
  }

  // ---- alignment ----

  /** The column at which column `n` ends: one for the left edge and three around each cell. */
  function Edge(widths: seq<nat>, n: nat): nat
    requires n <= |widths|
  {
    if n == 0 then 1 else Edge(widths, n - 1) + widths[n - 1] + 3
  }

  lemma {:induction false} RepeatWidth(c: char, n: nat, rest: string)
    requires 0 < c as nat < 0x80
    ensures Width(Repeat(c, n) + rest) == n + Width(rest)
  {
    hide Width;
    if n == 0 {
      assert Repeat(c, n) + rest == rest;
    } else {
      assert Repeat(c, n) + rest == Repeat(c, n - 1) + ([c] + rest);
      RepeatWidth(c, n - 1, [c] + rest);
      AsciiFirst(c, rest);
    }
  }

  lemma CellWidth(text: string, width: nat)
    requires Width(text) <= width
    ensures Width(Cell(text, width)) == width + 3
  {
    hide Width, Repeat;
    var pad := Repeat(' ', width - Width(text)) + " |";
    AsciiFirst(' ', text + pad);
    RepeatStart(width - Width(text), " |");
    WidthConcat(text, pad);
    RepeatWidth(' ', width - Width(text), " |");
    CellEndWidth();
  }

  lemma CellEndWidth()
    ensures Width(" |") == 2
  {
  }

  lemma {:induction false} RepeatStart(n: nat, rest: string)
    requires rest != "" && rest[0] == ' '
    ensures (Repeat(' ', n) + rest)[0] == ' '
  {
    if n > 0 {
      assert Repeat(' ', n) + rest == Repeat(' ', n - 1) + ([' '] + rest);
      RepeatStart(n - 1, [' '] + rest);
    }
  }

  /** In a data line every column ends at its edge. */
  lemma {:induction false} RowAligned(row: Row, widths: seq<nat>, n: nat)
    requires n <= |row| == |widths| && forall i | 0 <= i < n :: Width(row[i]) <= widths[i]
    ensures Width(RowPrefix(row, widths, n)) == Edge(widths, n)
  {
    hide Width, Cell;
    if n == 0 {
      BarWidth();
    } else {
      RowAligned(row, widths, n - 1);
      CellStart(row[n - 1], widths[n - 1]);
      WidthConcat(RowPrefix(row, widths, n - 1), Cell(row[n - 1], widths[n - 1]));
      CellWidth(row[n - 1], widths[n - 1]);
    }
  }

  lemma CellStart(text: string, width: nat)
    ensures Cell(text, width) != "" && Cell(text, width)[0] == ' '
  {
  }

  lemma BarWidth()
    ensures Width("|") == 1 && Width("+") == 1
  {
  }

  /** In a border every column ends at the same edge. */
  lemma {:induction false} BorderAligned(widths: seq<nat>, n: nat)
    requires n <= |widths|
    ensures Width(BorderPrefix(widths, n)) == Edge(widths, n)
  {
    hide Width;
    BarWidth();
    if n > 0 {
      BorderAligned(widths, n - 1);
      var dashes := Repeat('-', widths[n - 1] + 2) + "+";
      DashStart(widths[n - 1] + 2);
      WidthConcat(BorderPrefix(widths, n - 1), dashes);
      RepeatWidth('-', widths[n - 1] + 2, "+");
    }
  }

  lemma {:induction false} DashStart(n: nat)
    requires n > 0
    ensures Repeat('-', n) != "" && Repeat('-', n)[0] == '-'
  {
    if n > 1 {
      DashStart(n - 1);
    }
  }

  /** No cell is wider than its column, so padding is never negative. */
  lemma PaddingNonNegative(headers: Row, rows: seq<Row>, i: nat)
    requires Rectangular(headers, rows) && i < |headers|
    ensures Width(headers[i]) <= Widths(headers, rows)[i]
    ensures forall r | r in rows :: Width(r[i]) <= Widths(headers, rows)[i]
  {
    ColumnWidthIsMaximum(headers, rows, i);
  }

  /** All lines of a table have the same display width. */
  lemma TableAligned(headers: Row, rows: seq<Row>, k: nat)
    requires Rectangular(headers, rows) && k < |TableLines(headers, rows)|
    ensures Width(TableLines(headers, rows)[k]) == Edge(Widths(headers, rows), |headers|)
  {
    hide Width, Edge, RowPrefix, BorderPrefix, Widths;
    var widths := Widths(headers, rows);
    BorderAligned(widths, |widths|);
    forall i | 0 <= i < |headers|
      ensures Width(headers[i]) <= widths[i] && forall r | r in rows :: Width(r[i]) <= widths[i]
    {
      PaddingNonNegative(headers, rows, i);
    }
    if k == 1 {
      RowAligned(headers, widths, |headers|);
    } else if 3 <= k < |rows| + 3 {
      RowLinesAligned(rows, widths);
      assert TableLines(headers, rows)[k] == RowLines(rows, widths)[k - 3];
    }
  }

  lemma {:induction false} RowLinesAligned(rows: seq<Row>, widths: seq<nat>)
    requires forall r | r in rows :: |r| == |widths| && forall i | 0 <= i < |widths| :: Width(r[i]) <= widths[i]
    ensures forall line | line in RowLines(rows, widths) :: Width(line) == Edge(widths, |widths|)
  {
    hide Width, Edge, RowPrefix;
    if rows != [] {
      RowLinesAligned(rows[..|rows| - 1], widths);
      RowAligned(rows[|rows| - 1], widths, |widths|);
    }
  }

  // ---- what the lines hold ----

  /** The line shows the text, padded with blanks to its column, which starts at display position `left`. */
  ghost predicate ShowsCell(line: string, text: string, left: nat, width: nat) {
    exists before: string, pad: string, after: string ::
      && line == before + " " + text + pad + " |" + after
      && before != "" && before[|before| - 1] == '|' && Width(before) == left
      && |pad| == width - Width(text) && forall c | c in pad :: c == ' '
  }

  lemma {:induction false} Blanks(n: int)
    ensures |Repeat(' ', n)| == (if n < 0 then 0 else n) && forall c | c in Repeat(' ', n) :: c == ' '
  {
    if n > 0 {
      Blanks(n - 1);
    }
  }

  lemma {:induction false} EndsInBar(row: Row, widths: seq<nat>, n: nat)
    requires n <= |row| && n <= |widths|
    ensures var line := RowPrefix(row, widths, n); line != "" && line[|line| - 1] == '|'
  {
    hide Width;
  }

  /** Each cell of a data line is there, between its column's bars. */
  lemma {:induction false} CellShown(row: Row, widths: seq<nat>, n: nat, i: nat)
    requires i < n <= |row| == |widths| && forall k | 0 <= k < n :: Width(row[k]) <= widths[k]
    ensures ShowsCell(RowPrefix(row, widths, n), row[i], Edge(widths, i), widths[i])
  {
    hide Width, Edge, Cell, Repeat;
    var before, cell := RowPrefix(row, widths, n - 1), Cell(row[n - 1], widths[n - 1]);
    if i == n - 1 {
      var pad := Repeat(' ', widths[i] - Width(row[i]));
      RowAligned(row, widths, i);
      EndsInBar(row, widths, i);
      Blanks(widths[i] - Width(row[i]));
      CellIs(row[i], widths[i]);
      assert before + cell == before + " " + row[i] + pad + " |" + "";
    } else {
      CellShown(row, widths, n - 1, i);
      ShownLonger(before, cell, row[i], Edge(widths, i), widths[i]);
    }
  }

  lemma CellIs(text: string, width: nat)
    ensures Cell(text, width) == " " + text + Repeat(' ', width - Width(text)) + " |"
  {
    hide Width, Repeat;
  }

  lemma ShownLonger(line: string, more: string, text: string, left: nat, width: nat)
    requires ShowsCell(line, text, left, width)
    ensures ShowsCell(line + more, text, left, width)
  {
    hide Width;
    var before: string, pad: string, after: string :|
      && line == before + " " + text + pad + " |" + after
      && before != "" && before[|before| - 1] == '|' && Width(before) == left
      && |pad| == width - Width(text) && forall c | c in pad :: c == ' ';
    assert line + more == before + " " + text + pad + " |" + (after + more);
  }

  /**
   * A printed table shows every header and every cell: a border, the headers, a border, the rows in order, a border;
   * and in each line the text of column `i` starts at the same place.
   */
  lemma TableShows(headers: Row, rows: seq<Row>, i: nat)
    requires Rectangular(headers, rows) && i < |headers|
    ensures var lines, widths := TableLines(headers, rows), Widths(headers, rows);
            && |lines| == |rows| + 4
            && ShowsCell(lines[1], headers[i], Edge(widths, i), widths[i])
            && forall r | 0 <= r < |rows| :: ShowsCell(lines[3 + r], rows[r][i], Edge(widths, i), widths[i])
  {
    hide Width, Edge, RowPrefix, BorderPrefix, Widths, ShowsCell;
    var widths := Widths(headers, rows);
    forall k | 0 <= k < |headers|
      ensures Width(headers[k]) <= widths[k] && forall r | r in rows :: Width(r[k]) <= widths[k]
    {
      PaddingNonNegative(headers, rows, k);
    }
    CellShown(headers, widths, |headers|, i);
    forall r | 0 <= r < |rows|
      ensures ShowsCell(TableLines(headers, rows)[3 + r], rows[r][i], Edge(widths, i), widths[i])
    {
      RowLinesAt(rows, widths, r);
      CellShown(rows[r], widths, |headers|, i);
    }
  }

  lemma {:induction false} RowLinesAt(rows: seq<Row>, widths: seq<nat>, r: nat)
    requires r < |rows| && forall row | row in rows :: |row| == |widths|
    ensures RowLines(rows, widths)[r] == RowPrefix(rows[r], widths, |widths|)
  {
    hide RowPrefix;
    if r < |rows| - 1 {
      RowLinesAt(rows[..|rows| - 1], widths, r);
    }
  }

  lemma {:induction false} DashesAre(n: nat)
    ensures |Repeat('-', n)| == n && forall c | c in Repeat('-', n) :: c == '-'
  {
    if n > 0 {
      DashesAre(n - 1);
    }
  }

  lemma {:induction false} EdgesGrow(widths: seq<nat>, n: nat, m: nat)
    requires n <= m <= |widths|
    ensures Edge(widths, n) <= Edge(widths, m) && (n < m ==> Edge(widths, n) < Edge(widths, m))
  {
    if n < m {
      EdgesGrow(widths, n, m - 1);
    }
  }

  /** A border up to column `n` has a plus sign at each edge and dashes elsewhere. */
  ghost predicate BorderUpTo(line: string, widths: seq<nat>, n: nat)
    requires n <= |widths|
  {
    && |line| == Edge(widths, n)
    && forall p | 0 <= p < |line| :: line[p] == if EdgeAt(widths, n, p) then '+' else '-'
  }

  ghost predicate EdgeAt(widths: seq<nat>, n: nat, p: int)
    requires n <= |widths|
  {
    exists m: nat :: m <= n && p == Edge(widths, m) - 1
  }

  lemma {:induction false} BorderPrefixShape(widths: seq<nat>, n: nat)
    requires n <= |widths|
    ensures BorderUpTo(BorderPrefix(widths, n), widths, n)
  {
    if n == 0 {
      assert Edge(widths, 0) == 1;
    } else {
      BorderPrefixShape(widths, n - 1);
      var before, dashes := BorderPrefix(widths, n - 1), Repeat('-', widths[n - 1] + 2);
      DashesAre(widths[n - 1] + 2);
      var line := BorderPrefix(widths, n);
      assert line == before + dashes + "+";
      forall p | 0 <= p < |line| ensures line[p] == if EdgeAt(widths, n, p) then '+' else '-' {
        EdgeStep(widths, n, p);
        if p < |before| {
          assert line[p] == before[p];
        } else if p < |line| - 1 {
          assert line[p] == dashes[p - |before|] && dashes[p - |before|] in dashes;
        }
      }
    }
  }

  lemma EdgeStep(widths: seq<nat>, n: nat, p: int)
    requires 0 < n <= |widths|
    ensures p < Edge(widths, n - 1) ==> (EdgeAt(widths, n, p) <==> EdgeAt(widths, n - 1, p))
    ensures Edge(widths, n - 1) <= p < Edge(widths, n) ==> (EdgeAt(widths, n, p) <==> p == Edge(widths, n) - 1)
  {
    EdgesGrow(widths, n - 1, n);
    forall m: nat | m <= n - 1 ensures Edge(widths, m) <= Edge(widths, n - 1) {
      EdgesGrow(widths, m, n - 1);
    }
  }

  /** The first, third and last line of a table are borders. */
  lemma TableBorders(headers: Row, rows: seq<Row>)
    requires Rectangular(headers, rows)
    ensures var lines, widths := TableLines(headers, rows), Widths(headers, rows);
            |lines| == |rows| + 4
            && forall k | k == 0 || k == 2 || k == |rows| + 3 :: BorderUpTo(lines[k], widths, |headers|)
  {
    hide Width, Edge, RowPrefix, BorderPrefix, Widths, BorderUpTo;
    BorderPrefixShape(Widths(headers, rows), |headers|);
  }
}
