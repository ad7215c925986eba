/** The per-table index as a value: what each index operation does to an entry of the registry. */
module IndexSpec {
  import opened Wrappers
  import opened Pairs
  import opened TableFile

  /** A tree is either intact or was left mid-split by a failed insertion. */
  datatype TreeState = Sound(pairs: seq<Pair>) | Damaged

  datatype Entry = Entry(loaded: bool, tree: TreeState, nextId: int)

  const NEW_ENTRY := Entry(false, Sound([]), 1)

  /** Row `i` of the file has id `i + 1` and maps to its line's offset. */
  ghost function IndexPairs(rows: seq<Row>): (p: seq<Pair>)
    ensures |p| == |rows| && forall i | 0 <= i < |rows| :: p[i] == (i + 1, rows[i].offset)
  {
    if rows == [] then [] else IndexPairs(rows[..|rows| - 1]) + [(|rows|, rows[|rows| - 1].offset)]
  }

  ghost function LoadedEntry(rows: seq<Row>): Entry {
    Entry(true, Sound(IndexPairs(rows)), |rows| + 1)
  }

  /** A loaded entry is what a fresh scan of the file would build; an unloaded one is empty. */
  ghost predicate Coherent(e: Entry, f: File) {
    if e.loaded then Scan(f).Ok? && e == LoadedEntry(Scan(f).value) else e == NEW_ENTRY
  }

  /** Loads the entry unless it is loaded. `memory` tells whether the allocator serves the whole rebuild. */
  ghost function EnsureLoaded(e: Entry, f: File, memory: bool): (Entry, bool) {
    if e.loaded then (e, true)
    else if Scan(f).Ok? && memory then (LoadedEntry(Scan(f).value), true)
    else (NEW_ENTRY, false)
  }

  ghost function NextId(e: Entry, f: File, memory: bool): (Entry, Option<int>) {
    var r := EnsureLoaded(e, f, memory);
    (r.0, if r.1 then Some(r.0.nextId) else None)
  }

  /** Registers an appended row. `forced` is the test hook, `room` whether the allocator serves this insertion. */
  ghost function Register(e: Entry, f: File, id: int, offset: int, forced: bool, memory: bool, room: bool): (Entry,
                          bool) {
    if forced then (e, false) else
      var r := EnsureLoaded(e, f, memory);
      if !r.1 || r.0.tree.Damaged? || HasKey(r.0.tree.pairs, id) then (r.0, false)
      else if !room then (r.0.(tree := Damaged), false)
      else (r.0.(tree := Sound(Ins(r.0.tree.pairs, id, offset)), nextId := if id >= r.0.nextId then id + 1
        else r.0.nextId), true)
  }

  /** Looks an id up; None when the index cannot be loaded. */
  ghost function FindRow(e: Entry, f: File, id: int, memory: bool): (Entry, Option<Option<int>>) {
    var r := EnsureLoaded(e, f, memory);
    (r.0, if !r.1 || r.0.tree.Damaged? then None
          else Some(if id in MapOf(r.0.tree.pairs) then Some(MapOf(r.0.tree.pairs)[id]) else None))
  }

  lemma {:induction false} IndexSorted(rows: seq<Row>)
    ensures Sorted(IndexPairs(rows))
    ensures forall k :: HasKey(IndexPairs(rows), k) <==> 1 <= k <= |rows|
  {
    var p := IndexPairs(rows);
    forall k | 1 <= k <= |rows| ensures HasKey(p, k) {
      assert p[k - 1].0 == k;
    }
  }

  /** The index holds id `k` exactly for rows 1 to n, with that row's offset. */
  lemma {:induction false} IndexLookup(rows: seq<Row>, k: int)
    ensures k in MapOf(IndexPairs(rows)) <==> 1 <= k <= |rows|
    ensures 1 <= k <= |rows| ==> MapOf(IndexPairs(rows))[k] == rows[k - 1].offset
  {
    hide MapOf, Sorted;
    var p := IndexPairs(rows);
    IndexSorted(rows);
    MapOfPairs(p);
    if 1 <= k <= |rows| {
      assert p[k - 1] == (k, rows[k - 1].offset);
    } else {
      assert !HasKey(p, k);
    }
  }

  /** Registering the next row of the file extends the index by one pair at its end. */
  lemma {:induction false} IndexSnoc(rows: seq<Row>, row: Row)
    ensures IndexPairs(rows + [row]) == IndexPairs(rows) + [(|rows| + 1, row.offset)]
    ensures Ins(IndexPairs(rows), |rows| + 1, row.offset) == IndexPairs(rows + [row])
    ensures !HasKey(IndexPairs(rows), |rows| + 1)
  {
    hide Ins, ScanFrom;
    var p := IndexPairs(rows);
    IndexSorted(rows);
    InsAt(p, |rows| + 1, row.offset, |rows|);
    assert p[..|rows|] == p && p[|rows|..] == [];
    assert (rows + [row])[..|rows|] == rows;
  }

  /** Loading gives a coherent entry whatever happens, and succeeds if the file scans and memory suffices. */
  lemma LoadCoherent(e: Entry, f: File, memory: bool)
    requires Coherent(e, f)
    ensures Coherent(EnsureLoaded(e, f, memory).0, f)
    ensures EnsureLoaded(e, f, memory).1 ==> EnsureLoaded(e, f, memory).0.loaded
    ensures Scan(f).Ok? && memory ==> EnsureLoaded(e, f, memory).1
  {
  }

  /** No damage, and the next id is above every id in use. */
  ghost predicate Tidy(e: Entry) {
    e.loaded ==> e.tree.Sound? && Below(e.tree.pairs, e.nextId)
  }

  lemma CoherentIsTidy(e: Entry, f: File)
    requires Coherent(e, f)
    ensures Tidy(e)
  {
    if e.loaded {
      LoadedIsTidy(Scan(f).value);
    }
  }

  lemma LoadedIsTidy(rows: seq<Row>)
    ensures Tidy(LoadedEntry(rows))
  {
  }

  /** The entry with one more row. */
  ghost function Extended(e: Entry, offset: int): Entry
    requires e.tree.Sound?
  {
    Entry(true, Sound(Ins(e.tree.pairs, e.nextId, offset)), e.nextId + 1)
  }

  /** Registering under the id handed out before succeeds unless it is made to fail, whatever the file holds. */
  lemma RegisterTidy(e: Entry, f: File, offset: int, forced: bool, memory: bool, room: bool)
    requires e.loaded && Tidy(e)
    ensures var r := Register(e, f, e.nextId, offset, forced, memory, room);
            r.1 == (!forced && room) && (r.1 ==> r.0 == Extended(e, offset))
    ensures Tidy(Extended(e, offset))
  {
    InsAt(e.tree.pairs, e.nextId, offset, |e.tree.pairs|);
  }

  /**
   * The index of a file extended by an appended row is that of a fresh scan exactly if the row fits the line buffer.
   */
  lemma ExtendedCoherent(f: File, row: seq<string>)
    requires f != "" && Scan(f).Ok? && Writable(row)
    ensures Coherent(Extended(LoadedEntry(RowsOf(f)), |Terminated(f)|), Appended(f, row))
       <==> |Csv.Encode(row)| <= LINE_MAX
  {
    hide Ins, Scan, Appended, Writable, Terminated, IndexPairs;
    var rows := RowsOf(f);
    AppendScan(f, row);
    IndexSnoc(rows, Row(|Terminated(f)|, Csv.NormalRow(row)));
    if Scan(Appended(f, row)).Ok? {
      AppendGrows(f, row);
    }
  }

  /**
   * Appending a row and registering it under the id handed out before always succeeds. It gives the index of a fresh
   * scan for every row that fits the line buffer, and for no other.
   */
  lemma RegisterCoherent(e: Entry, f: File, row: seq<string>, memory: bool)
    requires Coherent(e, f) && e.loaded && f != "" && Writable(row)
    ensures var r := Register(e, Appended(f, row), e.nextId, |Terminated(f)|, false, memory, true);
            && r.1 && r.0.loaded && r.0.nextId == e.nextId + 1
            && (Coherent(r.0, Appended(f, row)) <==> |Csv.Encode(row)| <= LINE_MAX)
  {
    hide Scan, Appended, Writable, Register, Below, LoadedEntry;
    CoherentIsTidy(e, f);
    RegisterTidy(e, Appended(f, row), |Terminated(f)|, false, memory, true);
    ExtendedCoherent(f, row);
  }
}
