/** What a scan makes of any file: which pieces it is read in, which of them are rows, and when it is refused. */
module FileLines {
  import opened Wrappers
  import opened Text
  import opened TableFile
  import Csv

  /**
   * The pieces a file is read in, as the places where they start, and the end: each goes through its first newline, or
   * over 4095 bytes if there is none in them, or to the end of the file.
   */
  ghost predicate Pieces(f: File, from: nat, cuts: seq<nat>) {
    && cuts != [] && cuts[0] == from && cuts[|cuts| - 1] == |f|
    && forall i | 0 <= i < |cuts| - 1 :: Piece(f, cuts[i], cuts[i + 1])
  }

  ghost predicate Piece(f: File, p: nat, e: nat) {
    && p < e <= |f| && e - p <= LINE_MAX && (forall q | p <= q < e - 1 :: f[q] != '\n')
    && (f[e - 1] == '\n' || e - p == LINE_MAX || e == |f|)
  }

  lemma ChunkIsPiece(f: File, p: nat)
    requires p < |f|
    ensures Piece(f, p, LineEnd(f, p, p))
  {
    var e := LineEnd(f, p, p);
    Progress(f, p);
    forall q | p <= q < e - 1 ensures f[q] != '\n' {
      assert !Ends(f, p, q + 1);
    }
    assert !Ends(f, p, e - 1);
  }

  /** There is one way only to cut a file into pieces. */
  lemma PieceIsChunk(f: File, p: nat, e: nat)
    requires Piece(f, p, e)
    ensures e == LineEnd(f, p, p)
  {
    var d := LineEnd(f, p, p);
    ChunkIsPiece(f, p);
    assert Ends(f, p, e) && Ends(f, p, d);
  }

  lemma {:induction false} CutFrom(f: File, p: nat) returns (cuts: seq<nat>)
    requires p <= |f|
    ensures Pieces(f, p, cuts)
    decreases |f| - p
  {
    if p == |f| {
      cuts := [p];
    } else {
      ChunkIsPiece(f, p);
      var rest := CutFrom(f, LineEnd(f, p, p));
      cuts := [p] + rest;
      forall i | 0 <= i < |cuts| - 1 ensures Piece(f, cuts[i], cuts[i + 1]) {
        if i > 0 {
          assert Piece(f, rest[i - 1], rest[i]);
        }
      }
    }
  }

  /** The text of piece `i`: up to its first NUL, without the line ends at its end. */
  ghost function TextOf(f: File, cuts: seq<nat>, i: nat): string
    requires i + 1 < |cuts| && cuts[i] <= cuts[i + 1] <= |f|
  {
    Strip(CString(f[cuts[i]..cuts[i + 1]]))
  }

  /** Piece `i` is cut properly and holds some text. */
  ghost predicate Speaks(f: File, cuts: seq<nat>, i: nat) {
    i + 1 < |cuts| && cuts[i] <= cuts[i + 1] <= |f| && TextOf(f, cuts, i) != ""
  }

  /** The listed pieces, and they only, are rows: all from piece `first` on that hold some text. */
  ghost predicate Listed(f: File, cuts: seq<nat>, first: nat, k: seq<nat>) {
    && (forall i, j | 0 <= i < j < |k| :: k[i] < k[j])
    && forall i: nat :: i in k <==> i >= first && Speaks(f, cuts, i)
  }

  /** Each row starts where its piece does and has the fields of its text. */
  ghost predicate RowsAre(f: File, cuts: seq<nat>, k: seq<nat>, rows: seq<Row>) {
    && |rows| == |k|
    && forall j | 0 <= j < |k| ::
         && Speaks(f, cuts, k[j]) && rows[j].offset == cuts[k[j]]
         && Csv.Parse(TextOf(f, cuts, k[j])) == Ok(rows[j].fields)
  }

  lemma {:induction false} ScanPieces(f: File, cuts: seq<nat>, n: nat) returns (k: seq<nat>)
    requires Pieces(f, 0, cuts) && n < |cuts|
    ensures Listed(f, cuts, n, k)
    ensures cuts[n] <= |f|
    ensures ScanFrom(f, cuts[n]).Ok? <==>
              forall i | n <= i < |cuts| - 1 && Speaks(f, cuts, i) :: Csv.Parse(TextOf(f, cuts, i)).Ok?
    ensures ScanFrom(f, cuts[n]).Ok? ==> RowsAre(f, cuts, k, ScanFrom(f, cuts[n]).value)
    decreases |cuts| - n
  {
    hide LineEnd, Strip, CString, Csv.Parse;
    if n == |cuts| - 1 {
      k := [];
    } else {
      assert Piece(f, cuts[n], cuts[n + 1]);
      PieceIsChunk(f, cuts[n], cuts[n + 1]);
      var rest := ScanPieces(f, cuts, n + 1);
      k := (if Speaks(f, cuts, n) then [n] else []) + rest;
      OneMorePiece(f, cuts, n, rest, k);
      RowsStep(f, cuts, n, rest, k);
    }
  }

  lemma OneMorePiece(f: File, cuts: seq<nat>, n: nat, rest: seq<nat>, k: seq<nat>)
    requires Listed(f, cuts, n + 1, rest) && k == (if Speaks(f, cuts, n) then [n] else []) + rest
    ensures Listed(f, cuts, n, k)
  {
    hide Speaks;
    var m := |k| - |rest|;
    forall i | 0 <= i < |rest| ensures rest[i] > n && k[m + i] == rest[i] {
      var x: nat := rest[i];
      assert x in rest;
    }
    forall i: nat ensures i in k <==> i >= n && Speaks(f, cuts, i) {
      if i in rest {
        var j :| 0 <= j < |rest| && rest[j] == i;
        assert k[m + j] == i;
      }
    }
  }

  lemma RowsStep(f: File, cuts: seq<nat>, n: nat, rest: seq<nat>, k: seq<nat>)
    requires n + 1 < |cuts| && cuts[n] < cuts[n + 1] <= |f| && cuts[n + 1] == LineEnd(f, cuts[n], cuts[n])
    requires k == (if Speaks(f, cuts, n) then [n] else []) + rest
    ensures ScanFrom(f, cuts[n]).Ok?
       <==> ScanFrom(f, cuts[n + 1]).Ok? && (Speaks(f, cuts, n) ==> Csv.Parse(TextOf(f, cuts, n)).Ok?)
    ensures ScanFrom(f, cuts[n]).Ok? && RowsAre(f, cuts, rest, ScanFrom(f, cuts[n + 1]).value) ==>
              RowsAre(f, cuts, k, ScanFrom(f, cuts[n]).value)
  {
    var text, later := TextOf(f, cuts, n), ScanFrom(f, cuts[n + 1]);
    OneChunk(f, cuts[n]);
    assert text == LineText(f, cuts[n], cuts[n + 1]) && (Speaks(f, cuts, n) <==> text != "");
    hide LineEnd, LineText, ScanFrom, Csv.Parse, RowsAre, TextOf, Speaks;
    if ScanFrom(f, cuts[n]).Ok? && RowsAre(f, cuts, rest, later.value) {
      if Speaks(f, cuts, n) {
        RowsLonger(f, cuts, n, rest, Row(cuts[n], Csv.Parse(text).value), later.value);
      } else {
        assert k == rest;
      }
    }
  }

  lemma OneChunk(f: File, p: nat)
    requires p < |f|
    ensures var e := LineEnd(f, p, p);
            var text, rest := LineText(f, p, e), ScanFrom(f, e);
            ScanFrom(f, p)
            == if text == "" then rest
               else if Csv.Parse(text).Err? || rest.Err? then Err
               else Ok([Row(p, Csv.Parse(text).value)] + rest.value)
  {
  }

  lemma RowsLonger(f: File, cuts: seq<nat>, n: nat, rest: seq<nat>, row: Row, rows: seq<Row>)
    requires RowsAre(f, cuts, rest, rows) && Speaks(f, cuts, n)
    requires row.offset == cuts[n] && Csv.Parse(TextOf(f, cuts, n)) == Ok(row.fields)
    ensures RowsAre(f, cuts, [n] + rest, [row] + rows)
  {
    hide Csv.Parse, TextOf;
  }

  /**
   * The scan of any file that is not empty: the file is cut into pieces, the first is the header, and every other piece
   * that holds some text is a row with the fields of that text; the file is refused if one of those texts is.
   */
  lemma ScanExactly(f: File) returns (cuts: seq<nat>, k: seq<nat>)
    requires f != ""
    ensures Pieces(f, 0, cuts) && Listed(f, cuts, 1, k)
    ensures Scan(f).Ok?
       <==> forall i | 1 <= i < |cuts| - 1 && Speaks(f, cuts, i) :: Csv.Parse(TextOf(f, cuts, i)).Ok?
    ensures Scan(f).Ok? ==> RowsAre(f, cuts, k, RowsOf(f))
  {
    hide ScanFrom, LineEnd, Strip, CString, Csv.Parse;
    cuts := CutFrom(f, 0);
    assert |cuts| > 1 && Piece(f, cuts[0], cuts[1]);
    PieceIsChunk(f, cuts[0], cuts[1]);
    k := ScanPieces(f, cuts, 1);
  }

  /** Reading at an offset gives the fields of the piece that starts there, if it holds some text. */
  lemma ReadExactly(f: File, p: nat, e: nat)
    requires Piece(f, p, e)
    ensures var text := Strip(CString(f[p..e])); ReadAt(f, p) == if text == "" then Err else Csv.Parse(text)
  {
    hide Strip, CString, Csv.Parse;
    PieceIsChunk(f, p, e);
  }
}
