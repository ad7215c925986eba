/** The index cache of one table on the heap: lazy loading by a scan, incremental registration, invalidation. */
module TableIndexes {
  import opened Wrappers
  import opened Pairs
  import opened TableFile
  import opened IndexSpec
  import opened BPlusTrees
  import Csv

  /** `rows` are the rows between `start` and `p`: what is left of the scan follows them. */
  ghost predicate ScannedSoFar(f: File, start: nat, p: nat, rows: seq<Row>) {
    && start <= p <= |f|
    && ScanFrom(f, start) == if ScanFrom(f, p).Err? then Err else Ok(rows + ScanFrom(f, p).value)
  }

  lemma ScanStep(f: File, start: nat, p: nat, rows: seq<Row>)
    requires ScannedSoFar(f, start, p, rows) && p < |f|
    ensures var e := LineEnd(f, p, p);
            var text := LineText(f, p, e);
            && p < e <= |f|
            && (text == "" ==> ScannedSoFar(f, start, e, rows))
            && (text != "" && Csv.Parse(text).Err? ==> ScanFrom(f, start).Err?)
            && (text != "" && Csv.Parse(text).Ok? ==> ScannedSoFar(f, start, e, rows + [Row(p, Csv.Parse(text).value)]))
            && (text != "" && Csv.Parse(text).Ok? && ScanFrom(f, start).Ok? ==> |rows| < |ScanFrom(f, start).value|)
  {
    var e := LineEnd(f, p, p);
    var text := LineText(f, p, e);
    if text != "" && Csv.Parse(text).Ok? && ScanFrom(f, e).Ok? {
      var row, rest := Row(p, Csv.Parse(text).value), ScanFrom(f, e).value;
      assert rows + ([row] + rest) == rows + [row] + rest;
    }
  }

  lemma SearchedIsMapped(pairs: seq<Pair>, id: int, value: int)
    requires Sorted(pairs)
    ensures HasKey(pairs, id) <==> id in MapOf(pairs)
    ensures (id, value) in pairs ==> id in MapOf(pairs) && MapOf(pairs)[id] == value
  {
  }

  class TableIndex {
    const name: string
    const tree: BPlusTree
    var loaded: bool
    var nextId: int
    ghost var damaged: bool

    ghost predicate Valid()
      reads this, tree, tree.Repr
    {
      this !in tree.Repr && tree in tree.Repr && (!damaged ==> tree.Valid())
    }

    /** The heap objects of the entry. */
    ghost function Objects(): set<object>
      reads tree
    {
      {this} + tree.Repr
    }

    /** The entry as a value. */
    ghost function Abs(): Entry
      reads this, tree
    {
      Entry(loaded, if damaged then Damaged else Sound(tree.Contents()), nextId)
    }

    constructor (name: string)
      ensures Valid() && Abs() == NEW_ENTRY && this.name == name && fresh(tree) && fresh(tree.Repr)
    {
      this.name := name;
      tree := new BPlusTree();
      loaded, nextId, damaged := false, 1, false;
    }

    /** Back to the state of a new entry, whatever state the tree is in. */
    method Invalidate()
      modifies this, tree
      ensures Valid() && Abs() == NEW_ENTRY && tree.Repr == {tree}
    {
      tree.Free();
      loaded, nextId, damaged := false, 1, false;
    }

    /** Scans the file into an empty tree; `n` is the number of rows indexed so far. */
    method Rebuild(file: File, budget: nat) returns (ok: bool, n: nat, left: nat)
      requires Valid() && !damaged && tree.Contents() == [] && tree.Nodes() == 0
      modifies `damaged, tree.Repr
      ensures this !in tree.Repr && tree in tree.Repr && fresh(tree.Repr - old(tree.Repr))
      ensures ok ==>
                Valid() && !damaged && Scan(file).Ok? && tree.Contents() == IndexPairs(RowsOf(file)) &&
                  n == |RowsOf(file)|
      ensures Scan(file).Ok? && budget >= |RowsOf(file)| ==> ok
    {
      left := budget;
      n := 0;
      if |file| == 0 {
        return false, 0, left;
      }
      var _, start := ReadLine(file, 0);
      var p := start;
      ghost var rows := [];
      assert ScanFrom(file, start).Ok? ==> [] + ScanFrom(file, start).value == ScanFrom(file, start).value;
      ok := true;
      assert Rebuilt(file, start, p, rows, n, budget, left);
      hide Rebuilt, ScanFrom;
      while p < |file|
        invariant fresh(tree.Repr - old(tree.Repr)) && p <= |file|
        invariant Rebuilt(file, start, p, rows, n, budget, left)
        decreases |file| - p
      {
        ok, p, n, left, rows := RebuildLine(file, start, p, n, budget, left, rows);
        if !ok {
          return;
        }
      }
      RebuiltAll(file, start, rows, n, budget, left);
    }

    /** The tree indexes exactly the rows before `p`, and `left` nodes of the budget remain. */
    ghost predicate Rebuilt(file: File, start: nat, p: nat, rows: seq<Row>, n: nat, budget: nat, left: nat)
      reads this, tree, tree.Repr
    {
      && Valid() && !damaged && ScannedSoFar(file, start, p, rows) && n == |rows| && tree.Contents() == IndexPairs(rows)
      && tree.Nodes() <= n && left + tree.Nodes() == budget
    }

    lemma RebuiltAll(file: File, start: nat, rows: seq<Row>, n: nat, budget: nat, left: nat)
      requires Rebuilt(file, start, |file|, rows, n, budget, left)
      ensures Valid() && !damaged && tree.Contents() == IndexPairs(rows) && n == |rows|
      ensures start <= |file| && ScanFrom(file, start) == Ok(rows)
    {
      assert rows + [] == rows;
    }

    /** One line of the scan: skipped if blank, otherwise parsed and indexed. */
    method RebuildLine(file: File, start: nat, p: nat, n: nat, budget: nat, left: nat, ghost rows: seq<Row>)
      returns (ok: bool, p': nat, n': nat, left': nat, ghost rows': seq<Row>)
      requires Rebuilt(file, start, p, rows, n, budget, left) && p < |file|
      modifies `damaged, tree.Repr
      ensures this !in tree.Repr && tree in tree.Repr && fresh(tree.Repr - old(tree.Repr))
      ensures ok ==> p < p' <= |file| && Rebuilt(file, start, p', rows', n', budget, left')
      ensures !ok ==> ScanFrom(file, start).Err? || budget < |ScanFrom(file, start).value|
    {
      hide ScanFrom, ScannedSoFar, LineEnd, LineText, Csv.Parse, Csv.Run, IndexPairs;
      ScanStep(file, start, p, rows);
      var text, e := ReadLine(file, p);
      ok, p', n', left', rows' := true, e, n, left, rows;
      if text != "" {
        var fields := Csv.ParseLine(text);
        if fields.Err? {
          ok := false;
          return;
        }
        var status;
        rows' := rows + [Row(p, fields.value)];
        status, left' := InsertNext(n, p, left, rows, Row(p, fields.value));
        ok, n' := status == Added, n + 1;
      }
    }

    /** Indexes the next scanned row. */
    method InsertNext(n: nat, p: nat, budget: nat, ghost rows: seq<Row>, ghost row: Row)
      returns (status: Status, left: nat)
      requires Valid() && !damaged && n == |rows| && tree.Contents() == IndexPairs(rows) && row.offset == p
      modifies `damaged, tree.Repr
      ensures this !in tree.Repr && tree in tree.Repr && fresh(tree.Repr - old(tree.Repr))
      ensures budget + old(tree.Nodes()) > n ==> status == Added
      ensures status == Added ==> Valid() && !damaged && tree.Contents() == IndexPairs(rows + [row])
      ensures status == Added ==> tree.Nodes() <= n + 1 && left + tree.Nodes() == budget + old(tree.Nodes())
    {
      IndexSnoc(rows, row);
      tree.CostBound(n + 1);
      status, left := tree.Insert(n + 1, p, budget);
      damaged := status == OutOfMemory;
    }

    /** An entry whose tree may be used. A damaged tree is never offered to a search or an insertion. */
    ghost predicate Usable()
      reads this
    {
      loaded ==> !damaged
    }

    /** Loads the index unless it is loaded; `memory` reports whether the allocator served the rebuild. */
    method EnsureLoaded(file: File, budget: nat) returns (ok: bool, left: nat, ghost memory: bool)
      requires Valid()
      modifies this, tree.Repr
      ensures Valid() && fresh(tree.Repr - old(tree.Repr))
      ensures (Abs(), ok) == IndexSpec.EnsureLoaded(old(Abs()), file, memory)
      ensures old(loaded) ==> left == budget && unchanged(this) && unchanged(tree)
      ensures budget >= |RowsOf(file)| ==> memory
    {
      if loaded {
        return true, budget, true;
      }
      Invalidate();
      var n;
      ok, n, left := Rebuild(file, budget);
      memory := ok || budget >= |RowsOf(file)|;
      if !ok {
        Invalidate();
        return;
      }
      loaded, nextId := true, n + 1;
    }

    /** The id the next row will have. */
    method GetNextId(file: File, budget: nat) returns (id: Option<int>, left: nat, ghost memory: bool)
      requires Valid()
      modifies this, tree.Repr
      ensures Valid() && fresh(tree.Repr - old(tree.Repr))
      ensures (Abs(), id) == IndexSpec.NextId(old(Abs()), file, memory)
      ensures budget >= |RowsOf(file)| ==> memory
    {
      var ok;
      ok, left, memory := EnsureLoaded(file, budget);
      id := if ok then Some(nextId) else None;
    }

    /** Registers an appended row. After a failed insertion the entry is still loaded but its tree is damaged. */
    method RegisterRow(file: File, id: int, offset: nat, forced: bool, budget: nat)
      returns (ok: bool, ghost memory: bool, ghost room: bool)
      requires Valid() && Usable()
      modifies this, tree.Repr
      ensures Valid() && fresh(tree.Repr - old(tree.Repr))
      ensures (Abs(), ok) == IndexSpec.Register(old(Abs()), file, id, offset, forced, memory, room)
      ensures budget >= |RowsOf(file)| ==> memory
      ensures old(loaded) && budget > |old(tree.Contents())| ==> room
    {
      memory, room := true, true;
      if forced {
        return false, true, true;
      }
      var left;
      ok, left, memory := EnsureLoaded(file, budget);
      if !ok {
        return;
      }
      ok, room := InsertRow(id, offset, left);
    }

    method InsertRow(id: int, offset: nat, budget: nat) returns (ok: bool, ghost room: bool)
      requires Valid() && loaded && !damaged
      modifies this, tree.Repr
      ensures Valid() && fresh(tree.Repr - old(tree.Repr))
      ensures (Abs(), ok) == IndexSpec.Register(old(Abs()), "", id, offset, false, true, room)
      ensures budget > |old(tree.Contents())| ==> room
    {
      if !HasKey(tree.Contents(), id) {
        tree.CostBound(id);
      }
      room := tree.Cost(id) <= budget || HasKey(tree.Contents(), id);
      var status, left := tree.Insert(id, offset, budget);
      damaged := status == OutOfMemory;
      ok := status == Added;
      if ok && id >= nextId {
        nextId := id + 1;
      }
    }

    /** Finds the file offset of an id; None if the index cannot be loaded. */
    method FindRow(file: File, id: int, budget: nat) returns (found: Option<Option<int>>, ghost memory: bool)
      requires Valid() && Usable()
      modifies this, tree.Repr
      ensures Valid() && fresh(tree.Repr - old(tree.Repr))
      ensures (Abs(), found) == IndexSpec.FindRow(old(Abs()), file, id, memory)
      ensures budget >= |RowsOf(file)| ==> memory
    {
      var ok, left;
      ok, left, memory := EnsureLoaded(file, budget);
      if !ok {
        return None, memory;
      }
      hide MapOf, RowsOf, Scan;
      var hit, value, _ := tree.Search(id);
      tree.ContentsSorted();
      SearchedIsMapped(tree.Contents(), id, value);
      found := Some(if hit then Some(value) else None);
    }
  }
}
