/** The registry of table indexes: one entry per storage name, found by linear search and created on demand. */
module Registries {
  import opened Wrappers
  import opened TableFile
  import opened IndexSpec
  import opened TableIndexes

  class Registry {
    var items: seq<TableIndex>
    ghost var Repr: set<object>

    /** Entries have distinct names and share no heap object. */
    ghost predicate Valid()
      reads this, Repr
    {
      && this in Repr
      && (forall i | 0 <= i < |items| :: items[i] in Repr && items[i].tree in Repr && items[i].tree.Repr <= Repr)
      && (forall i | 0 <= i < |items| :: this !in items[i].Objects() && items[i].Valid())
      && (forall i, j | 0 <= i < j < |items| ::
           items[i].name != items[j].name && items[i].Objects() !! items[j].Objects())
    }

    /** The position of a name, or the number of entries. */
    ghost function Position(name: string): (i: nat)
      reads this
      ensures i <= |items| && (i < |items| ==> items[i].name == name) && forall j | 0 <= j < i :: items[j].name != name
    {
      PositionFrom(name, 0)
    }

    ghost function PositionFrom(name: string, k: nat): (i: nat)
      requires k <= |items| && forall j | 0 <= j < k :: items[j].name != name
      reads this
      ensures i <= |items| && (i < |items| ==> items[i].name == name) && forall j | 0 <= j < i :: items[j].name != name
      decreases |items| - k
    {
      if k == |items| || items[k].name == name then k else PositionFrom(name, k + 1)
    }

    /** The entry of a name as a value; a name without an entry counts as a new one. */
    ghost function EntryOf(name: string): Entry
      requires Valid()
      reads this, Repr
    {
      var i := Position(name);
      if i < |items| then items[i].Abs() else NEW_ENTRY
    }

    constructor ()
      ensures Valid() && fresh(Repr) && items == []
    {
      items, Repr := [], {this};
    }

    /** Linear search; the number of entries if the name has none. */
    method Find(name: string) returns (i: nat)
      ensures i == Position(name)
    {
      i := 0;
      while i < |items|
        invariant i <= |items| && forall j | 0 <= j < i :: items[j].name != name
      {
        if items[i].name == name {
          return;
        }
        i := i + 1;
      }
    }

    /** Finds the entry of a name or adds a new one. */
    method GetOrCreate(name: string) returns (i: nat)
      requires Valid()
      modifies this
      ensures Valid() && fresh(Repr - old(Repr)) && old(items) <= items
      ensures i < |items| && items[i].name == name && i == Position(name)
      ensures forall n :: EntryOf(n) == old(EntryOf(n))
    {
      i := Find(name);
      if i == |items| {
        Add(name);
      }
    }

    method Add(name: string)
      requires Valid() && Position(name) == |items|
      modifies this
      ensures Valid() && fresh(Repr - old(Repr)) && old(items) <= items
      ensures |items| == old(|items|) + 1 && Position(name) == old(|items|)
      ensures forall n :: EntryOf(n) == old(EntryOf(n))
    {
      var entry := new TableIndex(name);
      items := items + [entry];
      Repr := Repr + entry.Objects();
      SamePosition(name, old(items), old(Position(name)), entry);
      assert Valid();
      hide PositionFrom, Registry.Position;
      forall n ensures EntryOf(n) == old(EntryOf(n)) {
        SamePosition(n, old(items), old(Position(n)), entry);
      }
    }

    lemma SamePosition(n: string, before: seq<TableIndex>, p: nat, entry: TableIndex)
      requires items == before + [entry] && p <= |before|
      requires (p < |before| ==> before[p].name == n) && forall j | 0 <= j < p :: before[j].name != n
      ensures Position(n) == if p == |before| && n != entry.name then |before| + 1 else p
    {
      var q := Position(n);
      assert forall j | 0 <= j < |before| :: items[j] == before[j];
      assert items[|before|] == entry;
    }

    /** An entry whose tree may be used. */
    ghost predicate Usable(name: string)
      requires Valid()
      reads this, Repr
    {
      var e := EntryOf(name);
      e.loaded ==> e.tree.Sound?
    }

    /** After an operation on entry `i` that allocated only fresh nodes, the registry is as before everywhere else. */
    twostate lemma OnlyOneChanged(i: nat)
      requires old(Valid()) && i < |items| && items == old(items) && this !in items[i].Objects()
      requires items[i].Valid() && fresh(items[i].tree.Repr - old(items[i].tree.Repr))
      requires Repr == old(Repr) + items[i].tree.Repr
      requires forall o | o in old(Repr) && o !in old(items[i].Objects()) && o != this :: unchanged(o)
      ensures Valid() && forall n :: Position(n) == old(Position(n))
      ensures forall n | Position(n) != i :: EntryOf(n) == old(EntryOf(n))
    {
      forall j | 0 <= j < |items| && j != i
        ensures items[j].Valid() && items[j].Abs() == old(items[j].Abs())
        ensures items[j].Objects() == old(items[j].Objects())
      {
        assert old(items[j].Objects()) !! old(items[i].Objects());
      }
    }

    /** The id the next row of a table will have. */
    method GetNextId(name: string, file: File, budget: nat) returns (id: Option<int>, ghost memory: bool)
      requires Valid()
      modifies Repr
      ensures Valid() && fresh(Repr - old(Repr))
      ensures (EntryOf(name), id) == IndexSpec.NextId(old(EntryOf(name)), file, memory)
      ensures budget >= |RowsOf(file)| ==> memory
      ensures forall n | n != name :: EntryOf(n) == old(EntryOf(n))
    {
      var i := GetOrCreate(name);
      label before:
      var left;
      id, left, memory := items[i].GetNextId(file, budget);
      Repr := Repr + items[i].tree.Repr;
      OnlyOneChanged@before(i);
    }

    /** Registers a row appended to a table. */
    method RegisterRow(name: string, file: File, id: int, offset: nat, forced: bool, budget: nat)
      returns (ok: bool, ghost memory: bool, ghost room: bool)
      requires Valid() && Usable(name)
      modifies Repr
      ensures Valid() && fresh(Repr - old(Repr))
      ensures (EntryOf(name), ok) == IndexSpec.Register(old(EntryOf(name)), file, id, offset, forced, memory, room)
      ensures budget >= |RowsOf(file)| ==> memory
      ensures old(EntryOf(name)).loaded && budget > |old(EntryOf(name)).tree.pairs| ==> room
      ensures forall n | n != name :: EntryOf(n) == old(EntryOf(n))
    {
      assert EntryOf(name).loaded ==> EntryOf(name).tree.Sound?;
      var i := GetOrCreate(name);
      label before:
      ok, memory, room := items[i].RegisterRow(file, id, offset, forced, budget);
      Repr := Repr + items[i].tree.Repr;
      OnlyOneChanged@before(i);
    }

    /** Looks an id up. */
    method FindRow(name: string, file: File, id: int, budget: nat)
      returns (found: Option<Option<int>>, ghost memory: bool)
      requires Valid() && Usable(name)
      modifies Repr
      ensures Valid() && fresh(Repr - old(Repr))
      ensures (EntryOf(name), found) == IndexSpec.FindRow(old(EntryOf(name)), file, id, memory)
      ensures budget >= |RowsOf(file)| ==> memory
      ensures forall n | n != name :: EntryOf(n) == old(EntryOf(n))
    {
      assert EntryOf(name).loaded ==> EntryOf(name).tree.Sound?;
      var i := GetOrCreate(name);
      label before:
      found, memory := items[i].FindRow(file, id, budget);
      Repr := Repr + items[i].tree.Repr;
      OnlyOneChanged@before(i);
    }

    /** Marks a table for reloading; a name without an entry is ignored. */
    method Invalidate(name: string)
      requires Valid()
      modifies Repr
      ensures Valid() && fresh(Repr - old(Repr))
      ensures EntryOf(name) == NEW_ENTRY
      ensures forall n | n != name :: EntryOf(n) == old(EntryOf(n))
    {
      var i := Find(name);
      if i < |items| {
        items[i].Invalidate();
        Repr := Repr + items[i].tree.Repr;
        OnlyOneChanged(i);
      }
    }

    /** Drops every entry. */
    method Reset()
      modifies this
      ensures Valid() && Repr == {this}
      ensures forall n :: EntryOf(n) == NEW_ENTRY
    {
      items, Repr := [], {this};
    }
  }
}
