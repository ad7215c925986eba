/** The append-only table file: chunked line reading, the row scan, reading at an offset, and append. */
module TableFile {
  import opened Wrappers
  import opened Text
  import Csv

  /** The bytes of a data file. */
  type File = string

  /** One line buffer holds 4096 bytes, one of them the terminator. */
  const LINE_MAX := 4095

  datatype Row = Row(offset: nat, fields: seq<string>)

  /** A chunk that starts at `p` and has reached `q` ends there. */
  predicate Ends(f: File, p: nat, q: nat) {
    q >= |f| || q - p >= LINE_MAX || (p < q && f[q - 1] == '\n')
  }

  /** Where the chunk read from `p` ends: after the first newline, after 4095 bytes, or at the end of the file. */
  function LineEnd(f: File, p: nat, q: nat): (e: nat)
    requires p <= q <= |f|
    ensures q <= e <= |f| && Ends(f, p, e) && forall k | q <= k < e :: !Ends(f, p, k)
    decreases |f| - q
  {
    if Ends(f, p, q) then q else LineEnd(f, p, q + 1)
  }

  /** The text of a chunk without its line ending. */
  function LineText(f: File, p: nat, e: nat): string
    requires p <= e <= |f|
  {
    Strip(CString(f[p..e]))
  }

  /** `fgets` followed by `strip_line_endings`: the text read from `p` and the position after it. */
  method ReadLine(f: File, p: nat) returns (text: string, e: nat)
    requires p <= |f|
    ensures e == LineEnd(f, p, p) && text == LineText(f, p, e)
  {
    e := p;
    while e < |f| && e - p < LINE_MAX && !(p < e && f[e - 1] == '\n')
      invariant p <= e <= |f| && LineEnd(f, p, e) == LineEnd(f, p, p)
    {
      e := e + 1;
    }
    text := Strip(CString(f[p..e]));
  }

  lemma Progress(f: File, p: nat)
    requires p < |f|
    ensures LineEnd(f, p, p) > p
  {
  }

  /** The data rows from `p` on, each with the offset of its line; blank lines do not count. */
  function ScanFrom(f: File, p: nat): Result<seq<Row>>
    requires p <= |f|
    decreases |f| - p
  {
    if p == |f| then Ok([]) else
      var e := LineEnd(f, p, p);
      var text := LineText(f, p, e);
      var rest := ScanFrom(f, e);
      if text == "" then rest
      else if Csv.Parse(text).Err? || rest.Err? then Err
      else Ok([Row(p, Csv.Parse(text).value)] + rest.value)
  }

  /** The data rows of a file: all lines after the header. An empty file has no header and is an error. */
  function Scan(f: File): Result<seq<Row>> {
    if f == "" then Err else ScanFrom(f, LineEnd(f, 0, 0))
  }

  /** The rows of a file that scans, and none otherwise. */
  function RowsOf(f: File): seq<Row> {
    if Scan(f).Ok? then Scan(f).value else []
  }

  /** Reading a single row at an offset. */
  function ReadAt(f: File, offset: nat): Result<seq<string>> {
    if offset >= |f| then Err
    else
      var text := LineText(f, offset, LineEnd(f, offset, offset));
      if text == "" then Err else Csv.Parse(text)
  }

  /** The file made ready for one more line. */
  function Terminated(f: File): File {
    if f != "" && f[|f| - 1] != '\n' then f + "\n" else f
  }

  method AppendRow(f: File, row: seq<string>) returns (f': File, offset: nat)
    ensures f' == Terminated(f) + Csv.Encode(row) && offset == |Terminated(f)|
  {
    f' := f;
    if |f| > 0 {
      var lastCharacter := f[|f| - 1];
      if lastCharacter != '\n' {
        f' := f' + "\n";
      }
    }
    offset := |f'|;
    f' := WriteFields(f', row);
  }

  method WriteFields(f: File, row: seq<string>) returns (f': File)
    ensures f' == f + Csv.Encode(row)
  {
    hide Csv.Escape, Csv.Encode;
    f' := f;
    var index := 0;
    while index < |row|
      invariant index <= |row| && f' == f + EncodePrefix(row, index)
    {
      var escaped := Csv.EscapeField(row[index]);
      var text := escaped[..escaped.Length - 1];
      assert text == Csv.Escape(row[index]);
      if index > 0 {
        f' := f' + ",";
      }
      f' := f' + text;
      assert f' == f + (EncodePrefix(row, index) + (if index > 0 then "," else "") + text);
      index := index + 1;
    }
    EncodeAll(row);
  }

  /** The first `n` fields as written so far. */
  ghost function EncodePrefix(row: seq<string>, n: nat): string
    requires n <= |row|
  {
    if n == 0 then "" else EncodePrefix(row, n - 1) + (if n > 1 then "," else "") + Csv.Escape(row[n - 1])
  }

  lemma {:induction false} EncodeSnoc(row: seq<string>, v: string)
    requires row != []
    ensures Csv.Encode(row + [v]) == Csv.Encode(row) + "," + Csv.Escape(v)
  {
    assert (row + [v])[1..] == row[1..] + [v];
    if |row| > 1 {
      EncodeSnoc(row[1..], v);
    }
  }

  lemma {:induction false} EncodeUpTo(row: seq<string>, n: nat)
    requires n <= |row|
    ensures EncodePrefix(row, n) == Csv.Encode(row[..n])
  {
    if n > 1 {
      EncodeUpTo(row, n - 1);
      EncodeSnoc(row[..n - 1], row[n - 1]);
      assert row[..n] == row[..n - 1] + [row[n - 1]];
    } else if n == 1 {
      assert EncodePrefix(row, 0) == "";
    }
  }

  lemma EncodeAll(row: seq<string>)
    ensures EncodePrefix(row, |row|) == Csv.Encode(row)
  {
    EncodeUpTo(row, |row|);
    assert row[..|row|] == row;
  }

  // ---- what an append does to a later scan ----

  /** `g` extends `f`; a chunk that ends inside `f` or at a newline is the same in both. */
  lemma {:induction false} SameChunk(f: File, g: File, p: nat)
    requires p < |f| && f <= g && (LineEnd(f, p, p) < |f| || g == f || Ends(g, p, |f|))
    ensures LineEnd(g, p, p) == LineEnd(f, p, p) && LineText(g, p, LineEnd(g, p, p)) == LineText(f, p, LineEnd(f, p, p))
  {
    var e, e' := LineEnd(f, p, p), LineEnd(g, p, p);
    assert forall q | p <= q < |f| :: Ends(g, p, q) == Ends(f, p, q);
    assert e' <= |f| && e' == e;
    assert f[p..e] == g[p..e];
  }

  /** Adding the missing final newline changes no row. */
  lemma {:induction false} NewlineKeepsScan(f: File, p: nat)
    requires p <= |f| && f != "" && f[|f| - 1] != '\n'
    ensures ScanFrom(f + "\n", p) == ScanFrom(f, p)
    decreases |f| - p
  {
    var g := f + "\n";
    if p == |f| {
      BlankEnd(g, p);
    } else {
      var e := LineEnd(f, p, p);
      if e < |f| || Ends(g, p, |f|) {
        SameChunk(f, g, p);
        NewlineKeepsScan(f, e);
      } else {
        assert forall q | p <= q < |f| :: Ends(g, p, q) == Ends(f, p, q);
        assert LineEnd(g, p, p) == |g| && g[p..|g|] == f[p..] + ['\n'];
        StrippedNewline(f[p..]);
        assert f[p..e] == f[p..];
      }
    }
  }

  /** A chunk that consists of a lone newline is skipped. */
  lemma {:induction false} BlankEnd(g: File, p: nat)
    requires p + 1 == |g| && g[p] == '\n'
    ensures ScanFrom(g, p) == Ok([])
  {
    var e := LineEnd(g, p, p);
    assert e == |g| && g[p..e] == "\n";
    assert CString("\n") == "\n" by {
      CStringOfClean("\n");
    }
    StripLineEnd("", '\n');
    assert "" + ['\n'] == "\n";
  }

  lemma {:induction false} StrippedNewline(s: string)
    ensures Strip(CString(s + ['\n'])) == Strip(CString(s))
  {
    CStringConcat(s, ['\n']);
    CStringOfClean(['\n']);
    CStringIfClean(s);
    StripLineEnd(s, '\n');
  }

  lemma CStringIfClean(s: string)
    ensures NulFree(s) ==> CString(s) == s
  {
  }

  lemma TerminatedKeepsScan(f: File)
    requires f != ""
    ensures Scan(Terminated(f)) == Scan(f)
  {
    var g := Terminated(f);
    if g != f {
      var e := LineEnd(f, 0, 0);
      if e < |f| || Ends(g, 0, |f|) {
        SameChunk(f, g, 0);
        NewlineKeepsScan(f, e);
      } else {
        assert forall q | 0 <= q < |f| :: Ends(g, 0, q) == Ends(f, 0, q);
      }
    }
  }

  /** Everything an inserted row must satisfy: at least one column, and no NUL or newline in a value. */
  ghost predicate Writable(row: seq<string>) {
    row != [] && forall i | 0 <= i < |row| :: NulFree(row[i]) && '\n' !in row[i]
  }

  /** Adds one row to a scan result. */
  ghost function Plus(rows: Result<seq<Row>>, row: Row): Result<seq<Row>> {
    if rows.Err? then Err else Ok(rows.value + [row])
  }

  /** Two scan results one after the other. */
  ghost function Join(first: Result<seq<Row>>, second: Result<seq<Row>>): Result<seq<Row>> {
    if first.Err? || second.Err? then Err else Ok(first.value + second.value)
  }

  /** A scan goes over a terminated file as if nothing followed it, and then over what does. */
  lemma {:induction false} ScanSplits(g: File, text: string, p: nat)
    requires p <= |g| && (g == "" || g[|g| - 1] == '\n')
    ensures ScanFrom(g + text, p) == Join(ScanFrom(g, p), ScanFrom(g + text, |g|))
    decreases |g| - p
  {
    var h := g + text;
    var last := ScanFrom(h, |g|);
    if p == |g| {
      assert last.Ok? ==> [] + last.value == last.value;
    } else {
      hide LineText, Csv.Parse;
      var e := LineEnd(g, p, p);
      assert e == |g| ==> Ends(h, p, |g|);
      SameChunk(g, h, p);
      hide Ends, LineEnd;
      ScanSplits(g, text, e);
      var rest := ScanFrom(g, e);
      assert rest.Ok? && last.Ok? ==>
          forall first: Row :: [first] + (rest.value + last.value) == [first] + rest.value + last.value;
    }
  }

  lemma {:induction false} LastLine(g: File, text: string)
    requires 0 < |text| <= LINE_MAX && '\n' !in text && NulFree(text) && Strip(text) == text
    ensures LineEnd(g + text, |g|, |g|) == |g + text| && LineText(g + text, |g|, |g + text|) == text
  {
    var h := g + text;
    forall q | |g| <= q < |h| ensures !Ends(h, |g|, q) {
      if q > |g| {
        assert h[q - 1] == text[q - 1 - |g|];
        assert text[q - 1 - |g|] in text;
      }
    }
    assert h[|g|..|h|] == text;
    CStringOfClean(text);
  }

  // ---- what a written row looks like ----

  ghost predicate LineSafe(text: string) {
    NulFree(text) && '\n' !in text && text != "" && !IsLineEnd(text[0]) && !IsLineEnd(text[|text| - 1])
  }

  lemma {:induction false} DoubledChars(v: string, c: char)
    requires c in Csv.Doubled(v)
    ensures c in v
  {
    if c != v[0] {
      DoubledChars(v[1..], c);
    }
  }

  lemma {:induction false} EscapeSafe(v: string)
    requires NulFree(v) && '\n' !in v
    ensures LineSafe(Csv.Escape(v))
  {
    var text := Csv.Escape(v);
    if v != "" && Csv.NeedsQuotes(v) {
      forall c | c in text ensures c != '\0' && c != '\n' {
        if c != '"' {
          DoubledChars(v, c);
        }
      }
    } else if v != "" {
      assert v[0] in v && v[|v| - 1] in v;
    }
  }

  /** A written row is one non-blank line of text: it can never be mistaken for a skipped line. */
  lemma {:induction false} EncodeSafe(row: seq<string>)
    requires Writable(row)
    ensures LineSafe(Csv.Encode(row))
  {
    EscapeSafe(row[0]);
    if |row| > 1 {
      EncodeSafe(row[1..]);
      var a, b := Csv.Escape(row[0]), Csv.Encode(row[1..]);
      assert Csv.Encode(row)[|a + "," + b| - 1] == b[|b| - 1];
    }
  }

  /** The line of a written row reads as that row if it fits one chunk, and as two rows at least if it does not. */
  lemma WrittenLine(g: File, row: seq<string>)
    requires Writable(row)
    ensures var text, p := Csv.Encode(row), |g|;
            var rows := ScanFrom(g + text, p);
            && (|text| <= LINE_MAX ==> rows == Ok([Row(p, Csv.NormalRow(row))]))
            && (|text| > LINE_MAX && rows.Ok? ==> |rows.value| >= 2)
            && (rows.Ok? ==> |rows.value| >= 1)
  {
    hide Csv.Encode, Csv.Parse, Csv.NormalRow, Strip, CString, Ends;
    var text, p := Csv.Encode(row), |g|;
    var h := g + text;
    EncodeSafe(row);
    Csv.RoundTrip(row);
    StripKeeps(text);
    if |text| <= LINE_MAX {
      LastLine(g, text);
      assert [Row(p, Csv.NormalRow(row))] + [] == [Row(p, Csv.NormalRow(row))];
    } else if ScanFrom(h, p).Ok? {
      FirstChunk(g, text);
      TailHasRow(g, text, p + LINE_MAX);
    }
  }

  lemma {:induction false} FirstChunk(g: File, text: string)
    requires LineSafe(text) && |text| > LINE_MAX
    ensures var p, h := |g|, g + text; LineEnd(h, p, p) == p + LINE_MAX && LineText(h, p, p + LINE_MAX) != ""
  {
    var p, h := |g|, g + text;
    var e := p + LINE_MAX;
    forall q | p <= q < e ensures !Ends(h, p, q) {
      if q > p {
        assert h[q - 1] == text[q - 1 - p];
        assert text[q - 1 - p] in text;
      }
    }
    assert Ends(h, p, e);
    var chunk := h[p..e];
    assert chunk == text[..LINE_MAX] && chunk[0] == text[0];
    CStringOfClean(chunk);
    StripNonBlank(chunk, 0);
  }

  lemma {:induction false} TailHasRow(g: File, text: string, q: nat)
    requires LineSafe(text) && |g| <= q < |g + text| && ScanFrom(g + text, q).Ok?
    ensures ScanFrom(g + text, q).value != []
    decreases |g + text| - q
  {
    var h := g + text;
    var e := LineEnd(h, q, q);
    if e == |h| {
      var chunk := h[q..e];
      assert chunk == text[q - |g|..] && chunk[|chunk| - 1] == text[|text| - 1];
      CStringOfClean(chunk);
      StripNonBlank(chunk, |chunk| - 1);
    } else {
      TailHasRow(g, text, e);
    }
  }

  /** Text after a final newline leaves the header line as it is. */
  lemma SameHeader(g: File, text: string)
    requires g != "" && g[|g| - 1] == '\n'
    ensures LineEnd(g + text, 0, 0) == LineEnd(g, 0, 0)
  {
    var e := LineEnd(g, 0, 0);
    assert e == |g| ==> Ends(g + text, 0, |g|);
    SameChunk(g, g + text, 0);
  }

  // ---- the main results ----

  /** The file and row an append produces. */
  ghost function Appended(f: File, row: seq<string>): File {
    Terminated(f) + Csv.Encode(row)
  }

  /** A scan after any append: the earlier rows, then what the new line reads as. */
  lemma AppendSplits(f: File, row: seq<string>)
    requires f != ""
    ensures Scan(Appended(f, row)) == Join(Scan(f), ScanFrom(Appended(f, row), |Terminated(f)|))
  {
    hide ScanFrom, Csv.Encode, Ends;
    var g, text := Terminated(f), Csv.Encode(row);
    TerminatedKeepsScan(f);
    SameHeader(g, text);
    ScanSplits(g, text, LineEnd(g, 0, 0));
  }

  /**
   * A scan after an append gives the earlier rows followed by the new one at the returned offset,
   * exactly when the encoded row fits one line buffer.
   */
  lemma AppendScan(f: File, row: seq<string>)
    requires f != "" && Writable(row) && Scan(f).Ok?
    ensures Scan(Appended(f, row)) == Plus(Scan(f), Row(|Terminated(f)|, Csv.NormalRow(row)))
       <==> |Csv.Encode(row)| <= LINE_MAX
  {
    hide Scan, ScanFrom, Csv.Encode, Csv.NormalRow, Writable;
    AppendSplits(f, row);
    WrittenLine(Terminated(f), row);
    var rows, tail := Scan(f).value, ScanFrom(Appended(f, row), |Terminated(f)|);
    if tail.Ok? {
      assert |rows + tail.value| == |rows| + |tail.value|;
      assert |rows + [Row(|Terminated(f)|, Csv.NormalRow(row))]| == |rows| + 1;
    }
  }

  /** Any append adds rows if the file can still be scanned: one exactly when the row fits, more when it does not. */
  lemma AppendGrows(f: File, row: seq<string>)
    requires f != "" && Writable(row) && Scan(Appended(f, row)).Ok?
    ensures Scan(f).Ok? && RowsOf(f) < RowsOf(Appended(f, row))
    ensures |RowsOf(Appended(f, row))| == |RowsOf(f)| + 1 <==> |Csv.Encode(row)| <= LINE_MAX
  {
    hide Scan, ScanFrom, Csv.Encode, Csv.NormalRow, Writable;
    AppendSplits(f, row);
    WrittenLine(Terminated(f), row);
  }

  /** No append makes a file that does not scan readable again. */
  lemma AppendKeepsError(f: File, row: seq<string>)
    requires f != "" && Scan(f).Err?
    ensures Scan(Appended(f, row)).Err?
  {
    AppendSplits(f, row);
  }

  /** Rows before an append are the first rows after it, whatever was appended. */
  lemma AppendKeepsRows(f: File, row: seq<string>)
    requires f != "" && Scan(Appended(f, row)).Ok?
    ensures Scan(f).Ok? && RowsOf(f) <= RowsOf(Appended(f, row))
  {
    hide ScanFrom, Csv.Encode;
    AppendSplits(f, row);
  }

  /** Every scanned row can be read again at its offset. */
  lemma {:induction false} RowsReadable(f: File, p: nat, i: nat)
    requires p <= |f| && ScanFrom(f, p).Ok? && i < |ScanFrom(f, p).value|
    ensures var row := ScanFrom(f, p).value[i]; p <= row.offset < |f| && ReadAt(f, row.offset) == Ok(row.fields)
    decreases |f| - p
  {
    var e := LineEnd(f, p, p);
    if LineText(f, p, e) == "" {
      RowsReadable(f, e, i);
    } else if i > 0 {
      RowsReadable(f, e, i - 1);
    }
  }

  lemma ScannedReadable(f: File, i: nat)
    requires Scan(f).Ok? && i < |Scan(f).value|
    ensures ReadAt(f, Scan(f).value[i].offset) == Ok(Scan(f).value[i].fields)
  {
    RowsReadable(f, LineEnd(f, 0, 0), i);
  }

  /** Adding the missing final newline changes nothing that is read at an offset. */
  lemma NewlineKeepsRead(f: File, p: nat)
    requires p < |f|
    ensures ReadAt(Terminated(f), p) == ReadAt(f, p)
  {
    hide Csv.Parse;
    var g := Terminated(f);
    if g != f {
      var e := LineEnd(f, p, p);
      if e < |f| || Ends(g, p, |f|) {
        SameChunk(f, g, p);
      } else {
        assert forall q | p <= q < |f| :: Ends(g, p, q) == Ends(f, p, q);
        assert LineEnd(g, p, p) == |g| && g[p..|g|] == f[p..] + ['\n'];
        StrippedNewline(f[p..]);
        assert f[p..e] == f[p..];
      }
    }
  }

  /** Whatever is appended, every offset inside the file reads the same as before. */
  lemma OffsetsStable(f: File, row: seq<string>, p: nat)
    requires p < |f|
    ensures ReadAt(Appended(f, row), p) == ReadAt(f, p)
  {
    hide Csv.Parse, Csv.Encode;
    var g := Terminated(f);
    NewlineKeepsRead(f, p);
    var e := LineEnd(g, p, p);
    assert e == |g| ==> Ends(Appended(f, row), p, |g|);
    SameChunk(g, Appended(f, row), p);
  }

  /** The returned offset reads the new row if it fits one line buffer. */
  lemma NewOffsetReads(f: File, row: seq<string>)
    requires f != "" && Writable(row) && Scan(f).Ok? && |Csv.Encode(row)| <= LINE_MAX
    ensures ReadAt(Appended(f, row), |Terminated(f)|) == Ok(Csv.NormalRow(row))
  {
    AppendScan(f, row);
    ScannedReadable(Appended(f, row), |RowsOf(f)|);
  }
}
