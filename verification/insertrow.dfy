/** From an INSERT's column and value lists to a row in schema order. */
module InsertRows {
  import opened Wrappers
  import opened Ast
  import opened Text

  /** The first position of a name in a list, or -1. */
  function IndexOf(list: seq<string>, name: string): (i: int)
    ensures -1 <= i < |list|
    ensures if i < 0 then name !in list else list[i] == name && name !in list[..i]
  {
    if list == [] then -1
    else if list[0] == name then 0
    else
      var i := IndexOf(list[1..], name);
      assert i >= 0 ==> list[..i + 1] == [list[0]] + list[1..][..i];
      if i < 0 then -1 else i + 1
  }

  method FindColumn(list: seq<string>, name: string) returns (i: int)
    ensures i == IndexOf(list, name)
  {
    i := 0;
    while i < |list|
      invariant 0 <= i <= |list| && name !in list[..i]
    {
      if list[i] == name {
        IndexOfUnique(list, name, i);
        return;
      }
      i := i + 1;
    }
    i := -1;
  }

  lemma IndexOfUnique(list: seq<string>, name: string, i: nat)
    requires i < |list| && list[i] == name && name !in list[..i]
    ensures IndexOf(list, name) == i
  {
  }

  predicate NewlineFree(s: string) {
    forall c | c in s :: !IsLineEnd(c)
  }

  predicate Valid(columns: seq<string>, values: seq<string>, schema: Schema) {
    && |columns| == |values|
    && forall i | 0 <= i < |columns| :: columns[i] != "id" && columns[i] in schema.columns && NewlineFree(values[i])
  }

  /** The first check of an INSERT, before an id is assigned. */
  method ValidateInsertColumns(columns: seq<string>, values: seq<string>, schema: Schema) returns (ok: bool)
    ensures ok == Valid(columns, values, schema)
  {
    if |columns| != |values| {
      return false;
    }
    var index := 0;
    while index < |columns|
      invariant index <= |columns|
      invariant forall i | 0 <= i < index ::
                  columns[i] != "id" && columns[i] in schema.columns && NewlineFree(values[i])
    {
      if columns[index] == "id" {
        return false;
      }
      var found := FindColumn(schema.columns, columns[index]);
      if found < 0 || !NewlineFree(values[index]) {
        return false;
      }
      index := index + 1;
    }
    return true;
  }

  /** The value an INSERT gives a column: that of the pair naming it, or the empty string. */
  ghost function ValueFor(columns: seq<string>, values: seq<string>, name: string): string
    requires |columns| == |values|
  {
    var i := IndexOf(columns, name);
    if i < 0 then "" else values[i]
  }

  /** The row an accepted INSERT stands for. Of equally named schema columns only the first can be set. */
  ghost function RowFor(columns: seq<string>, values: seq<string>, schema: Schema): seq<string>
    requires |columns| == |values|
  {
    seq(|schema.columns|, c requires 0 <= c < |schema.columns| =>
      if IndexOf(schema.columns, schema.columns[c]) == c then ValueFor(columns, values, schema.columns[c]) else "")
  }

  ghost predicate DistinctNames(s: seq<string>) {
    forall i, j | 0 <= i < j < |s| :: s[i] != s[j]
  }

  /** An INSERT that the executor accepts. */
  ghost predicate Insertable(columns: seq<string>, values: seq<string>, schema: Schema) {
    Valid(columns, values, schema) && DistinctNames(columns)
  }

  /** The column slot that pair `k` sets. */
  ghost function SlotOf(columns: seq<string>, schema: Schema, k: nat): int
    requires k < |columns|
  {
    IndexOf(schema.columns, columns[k])
  }

  /** What slot `c` holds after the first `n` pairs. */
  ghost predicate SlotIs(columns: seq<string>, values: seq<string>, schema: Schema, n: nat, c: nat, taken: bool,
                         value: string)
    requires n <= |columns| == |values|
  {
    && taken == (exists k | 0 <= k < n :: SlotOf(columns, schema, k) == c)
    && (!taken ==> value == "")
    && forall k | 0 <= k < n && SlotOf(columns, schema, k) == c :: value == values[k]
  }

  ghost predicate SlotsAre(columns: seq<string>, values: seq<string>, schema: Schema, n: nat, taken: seq<bool>,
                           slots: seq<string>)
    requires n <= |columns| == |values|
  {
    && |slots| == |taken| == |schema.columns|
    && forall c | 0 <= c < |slots| :: SlotIs(columns, values, schema, n, c, taken[c], slots[c])
  }

  lemma FillSlot(columns: seq<string>, values: seq<string>, schema: Schema, n: nat, taken: seq<bool>,
                 slots: seq<string>, column: nat)
    requires n < |columns| == |values| && SlotsAre(columns, values, schema, n, taken, slots)
    requires column < |slots| && column == SlotOf(columns, schema, n) && !taken[column]
    ensures SlotsAre(columns, values, schema, n + 1, taken[column := true], slots[column := values[n]])
  {
  }

  /** A slot is taken exactly if an earlier pair named the same column. */
  lemma TakenMeansNamed(columns: seq<string>, values: seq<string>, schema: Schema, n: nat, taken: seq<bool>,
                        slots: seq<string>)
    requires n < |columns| == |values| && SlotsAre(columns, values, schema, n, taken, slots)
    requires 0 <= SlotOf(columns, schema, n) < |slots|
    ensures taken[SlotOf(columns, schema, n)] <==> exists k :: 0 <= k < n && columns[k] == columns[n]
  {
    var column := SlotOf(columns, schema, n);
    assert SlotIs(columns, values, schema, n, column, taken[column], slots[column]);
    assert forall k | 0 <= k < n :: SlotOf(columns, schema, k) == column <==> columns[k] == columns[n];
  }

  /** Fills the row slot by slot; a column named twice is an error. */
  method BuildInsertRow(columns: seq<string>, values: seq<string>, schema: Schema) returns (row: Result<seq<string>>)
    requires Valid(columns, values, schema)
    ensures row == if DistinctNames(columns) then Ok(RowFor(columns, values, schema)) else Err
  {
    var taken := new bool[|schema.columns|](_ => false);
    var slots := seq(|schema.columns|, _ => "");
    var index := 0;
    while index < |columns|
      invariant index <= |columns| && |slots| == |schema.columns|
      invariant forall i, j | 0 <= i < j < index :: columns[i] != columns[j]
      invariant SlotsAre(columns, values, schema, index, taken[..], slots)
    {
      hide SlotsAre, SlotIs, RowFor;
      var column := FindColumn(schema.columns, columns[index]);
      assert column == SlotOf(columns, schema, index);
      if column < 0 {
        return Err;
      }
      TakenMeansNamed(columns, values, schema, index, taken[..], slots);
      if taken[column] {
        return Err;
      }
      FillSlot(columns, values, schema, index, taken[..], slots, column);
      taken[column] := true;
      slots := slots[column := values[index]];
      index := index + 1;
    }
    FilledSlots(columns, values, schema, slots, taken[..]);
    return Ok(slots);
  }

  lemma FilledSlots(columns: seq<string>, values: seq<string>, schema: Schema, slots: seq<string>, taken: seq<bool>)
    requires |columns| == |values| && DistinctNames(columns)
    requires SlotsAre(columns, values, schema, |columns|, taken, slots)
    requires forall i | 0 <= i < |columns| :: columns[i] in schema.columns
    ensures slots == RowFor(columns, values, schema)
  {
  }

  /** Each named column holds its value and every other one the empty string. */
  lemma RowHolds(columns: seq<string>, values: seq<string>, schema: Schema)
    requires Insertable(columns, values, schema)
    ensures |RowFor(columns, values, schema)| == |schema.columns|
    ensures forall k | 0 <= k < |columns| ::
              RowFor(columns, values, schema)[IndexOf(schema.columns, columns[k])] == values[k]
    ensures forall c | 0 <= c < |schema.columns|
                         && (schema.columns[c] !in columns || IndexOf(schema.columns, schema.columns[c]) != c) ::
              RowFor(columns, values, schema)[c] == ""
  {
    forall k | 0 <= k < |columns|
      ensures RowFor(columns, values, schema)[IndexOf(schema.columns, columns[k])] == values[k]
    {
      IndexOfDistinct(columns, k);
    }
  }

  lemma IndexOfDistinct(s: seq<string>, k: nat)
    requires DistinctNames(s) && k < |s|
    ensures IndexOf(s, s[k]) == k
  {
  }

  /** The row does not depend on the order in which the pairs are listed. */
  lemma OrderIrrelevant(columns: seq<string>, values: seq<string>, columns': seq<string>, values': seq<string>,
                        schema: Schema)
    requires Insertable(columns, values, schema) && |columns'| == |values'|
    requires DistinctNames(columns') && PairSet(columns, values) == PairSet(columns', values')
    ensures Insertable(columns', values', schema)
    ensures RowFor(columns, values, schema) == RowFor(columns', values', schema)
  {
    forall i | 0 <= i < |columns'|
      ensures exists k :: 0 <= k < |columns| && columns[k] == columns'[i] && values[k] == values'[i]
    {
      assert (columns'[i], values'[i]) in PairSet(columns, values);
    }
    forall name ensures ValueFor(columns, values, name) == ValueFor(columns', values', name) {
      SameValue(columns, values, columns', values', name);
    }
  }

  ghost function PairSet(columns: seq<string>, values: seq<string>): set<(string, string)>
    requires |columns| == |values|
  {
    set i | 0 <= i < |columns| :: (columns[i], values[i])
  }

  lemma SameValue(columns: seq<string>, values: seq<string>, columns': seq<string>, values': seq<string>, name: string)
    requires |columns| == |values| && |columns'| == |values'| && DistinctNames(columns) && DistinctNames(columns')
    requires PairSet(columns, values) == PairSet(columns', values')
    ensures ValueFor(columns, values, name) == ValueFor(columns', values', name)
  {
    var i, j := IndexOf(columns, name), IndexOf(columns', name);
    if i >= 0 {
      assert (columns[i], values[i]) in PairSet(columns', values');
      var k :| 0 <= k < |columns'| && columns'[k] == name && values'[k] == values[i];
      IndexOfDistinct(columns', k);
    } else {
      assert forall k | 0 <= k < |columns'| ::
               (columns'[k], values'[k]) in PairSet(columns', values') && columns'[k] in columns;
    }
  }
}
