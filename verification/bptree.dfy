/** The in-memory B+ tree: recursive insertion with splits, and search, on heap nodes. */
module BPlusTrees {
  import opened Wrappers
  import opened Pairs
  import opened Nodes
  import opened Shape
  import TreeFacts

  datatype Status = Added | Duplicate | OutOfMemory

  /** A leaf's first position whose key is not below the given one, and whether the key is there. */
  method FindPosition(n: Node, key: int, ghost t: Tree, ghost tail: Node?) returns (at: nat, found: bool)
    requires t.Leaf? && t.node == n && Stored(t, tail) && Sorted(t.pairs)
    ensures Position(t.pairs, key, at) && found == HasKey(t.pairs, key)
  {
    at := 0;
    while at < n.keyCount && n.keys[at] < key
      invariant at <= n.keyCount
      invariant forall i | 0 <= i < at :: t.pairs[i].0 < key
    {
      at := at + 1;
    }
    found := at < n.keyCount && n.keys[at] == key;
    assert found ==> t.pairs[at].0 == key;
  }

  /** Puts a pair into a leaf, possibly filling the spare slot. */
  method PutPair(n: Node, at: nat, key: int, value: int, ghost t: Tree, ghost tail: Node?)
    requires t.Leaf? && t.node == n && Stored(t, tail) && at <= |t.pairs| <= MAX_KEYS
    modifies Footprint(t)
    ensures Stored(Leaf(n, t.pairs[..at] + [(key, value)] + t.pairs[at..]), tail)
  {
    hide Stored, Agree;
    LeafBuffers(n, t.pairs, tail);
    ghost var keys, values := n.keys[..n.keyCount], n.values[..n.keyCount];
    n.InsertPair(at, key, value);
    assert n.keys[..n.keyCount] == keys[..at] + [key] + keys[at..];
    assert n.values[..n.keyCount] == values[..at] + [value] + values[at..];
    PairsPut(keys, values, t.pairs, at, key, value);
    LeafBuffers(n, t.pairs[..at] + [(key, value)] + t.pairs[at..], tail);
  }

  ghost predicate Agree(keys: seq<int>, values: seq<int>, pairs: seq<Pair>) {
    |keys| == |values| == |pairs| && forall i | 0 <= i < |pairs| :: keys[i] == pairs[i].0 && values[i] == pairs[i].1
  }

  lemma PairsPut(keys: seq<int>, values: seq<int>, pairs: seq<Pair>, at: nat, key: int, value: int)
    requires Agree(keys, values, pairs) && at <= |pairs|
    ensures at <= |keys| && at <= |values|
    ensures Agree(keys[..at] + [key] + keys[at..], values[..at] + [value] + values[at..],
              pairs[..at] + [(key, value)] + pairs[at..])
  {
  }

  /** A stored leaf in terms of the used parts of its buffers. */
  lemma LeafBuffers(n: Node, pairs: seq<Pair>, tail: Node?)
    ensures Stored(Leaf(n, pairs), tail) <==>
              n.Shaped() && n.isLeaf && n.keyCount == |pairs| <= MAX_KEYS + 1 && n.next == tail
              && Agree(n.keys[..n.keyCount], n.values[..n.keyCount], pairs)
  {
  }

  /** Splits an over-full leaf in two and relinks the chain. */
  method SplitLeaf(n: Node, ghost pairs: seq<Pair>, ghost tail: Node?) returns (r: Node)
    requires Stored(Leaf(n, pairs), tail) && |pairs| == MAX_KEYS + 1
    modifies n.Own()
    ensures Stored(Leaf(n, pairs[..2]), r) && Stored(Leaf(r, pairs[2..]), tail)
    ensures fresh(r.Own()) && r.keys[0] == pairs[2].0
  {
    r := new Node(true);
    n.MoveUpperPairs(r);
    assert r.keys[..2][0] == pairs[2].0 && r.keys[..2][1] == pairs[3].0;
    assert r.values[..2][0] == pairs[2].1 && r.values[..2][1] == pairs[3].1;
  }

  /** What a successful insertion below a node leaves in the heap. */
  ghost predicate Built(out: seq<Tree>, tail: Node?, n: Node, right: Node?, objects: set<object>)
    reads objects
  {
    && 1 <= |out| <= 2 && StoredAll(out, tail, objects) && SeparateAll(out, objects)
    && out[0].node == n && (if |out| == 2 then right == out[1].node else right == null)
  }

  lemma BuiltOne(x: Tree, tail: Node?)
    requires Stored(x, tail) && Separate(x)
    ensures Built([x], tail, x.node, null, Footprint(x))
  {
  }

  lemma BuiltTwo(x: Tree, y: Tree, tail: Node?)
    requires Stored(x, First(y)) && Stored(y, tail) && Separate(x) && Separate(y) && Footprint(x) !! Footprint(y)
    ensures Built([x, y], tail, x.node, y.node, Footprint(x) + Footprint(y))
  {
  }

  /** Puts a new pair at its position and splits the leaf if that fills the spare slot. */
  method AddToLeaf(n: Node, at: nat, key: int, value: int, budget: nat, ghost t: Tree, ghost tail: Node?)
    returns (status: Status, promoted: int, right: Node?, left: nat, ghost out: seq<Tree>, ghost objects: set<object>)
    requires t.Leaf? && t.node == n && Stored(t, tail) && Ordered(t) && FilledRoot(t) && !HasKey(t.pairs, key)
    requires Position(t.pairs, key, at)
    modifies Footprint(t)
    ensures status == (if Needed(t, key) <= budget then Added else OutOfMemory)
    ensures status == Added ==>
              && Inserted(t, key, value, out, promoted) && left == budget - Needed(t, key)
              && Built(out, tail, n, right, objects) && fresh(objects - Footprint(t))
  {
    PutPair(n, at, key, value, t, tail);
    ghost var pairs := t.pairs[..at] + [(key, value)] + t.pairs[at..];
    if n.keyCount <= MAX_KEYS {
      LeafInserts(t, key, value, at, n);
      hide Inserted;
      BuiltOne(Leaf(n, pairs), tail);
      return Added, 0, null, budget, [Leaf(n, pairs)], n.Own();
    }
    if budget == 0 {
      return OutOfMemory, 0, null, 0, [], {};
    }
    var r := SplitLeaf(n, pairs, tail);
    LeafInserts(t, key, value, at, r);
    hide Inserted;
    BuiltTwo(Leaf(n, pairs[..2]), Leaf(r, pairs[2..]), tail);
    return Added, r.keys[0], r, budget - 1, [Leaf(n, pairs[..2]), Leaf(r, pairs[2..])], n.Own() + r.Own();
  }

  /**
   * Inserts into a leaf. `budget` is the number of nodes the allocator can still provide and `left` what
   * remains of it; `right` is null unless the leaf was split, in which case `promoted` separates the halves.
   */
  method InsertIntoLeaf(n: Node, key: int, value: int, budget: nat, ghost t: Tree, ghost tail: Node?)
    returns (status: Status, promoted: int, right: Node?, left: nat, ghost out: seq<Tree>, ghost objects: set<object>)
    requires t.Leaf? && t.node == n && Stored(t, tail) && Ordered(t) && FilledRoot(t)
    modifies Footprint(t)
    ensures status ==
              (if HasKey(Flat(t), key) then Duplicate else if Needed(t, key) <= budget then Added else OutOfMemory)
    ensures status == Duplicate ==> unchanged(Footprint(t))
    ensures status == Added ==>
              && Inserted(t, key, value, out, promoted) && left == budget - Needed(t, key)
              && Built(out, tail, n, right, objects) && fresh(objects - Footprint(t))
  {
    hide Inserted, Built, HasKey, Position, Stored, Sorted, Needed;
    var at, found := FindPosition(n, key, t, tail);
    if found {
      return Duplicate, 0, null, budget, [], {};
    }
    status, promoted, right, left, out, objects := AddToLeaf(n, at, key, value, budget, t, tail);
  }

  /** Puts a promoted key and the right half of child `c` into an internal node's buffers. */
  method PutChild(n: Node, c: nat, key: int, child: Node, ghost keys: seq<int>, ghost kids: seq<Tree>,
                  ghost kids': seq<Tree>)
    requires Points(n, keys, kids) && c <= |keys| <= MAX_KEYS && |kids'| == |kids| + 1
    requires forall i | 0 <= i <= c :: kids'[i].node == kids[i].node
    requires kids'[c + 1].node == child && forall i | c < i < |kids| :: kids'[i + 1].node == kids[i].node
    modifies n`keyCount, n.keys, n.children
    ensures Points(n, keys[..c] + [key] + keys[c..], kids')
  {
    ghost var before := n.children[..n.keyCount + 1];
    n.InsertChild(c, key, child);
    ghost var now := n.children[..n.keyCount + 1];
    assert now == before[..c + 1] + [child] + before[c + 1..];
    forall i | 0 <= i < |kids'| ensures n.children[i] == kids'[i].node {
      assert n.children[i] == now[i];
      assert i > c + 1 ==> now[i] == before[i - 1] && kids'[i].node == kids[i - 1].node;
    }
  }

  /** Splits an over-full internal node; the middle separator is promoted. */
  method SplitInner(n: Node, ghost keys: seq<int>, ghost kids: seq<Tree>) returns (promoted: int, r: Node)
    requires Points(n, keys, kids) && |keys| == MAX_KEYS + 1
    modifies n.Own()
    ensures Points(n, keys[..2], kids[..3]) && Points(r, keys[3..], kids[3..])
    ensures promoted == keys[2] && fresh(r.Own())
  {
    r := new Node(false);
    promoted := n.MoveUpperChildren(r);
    assert r.children[..2][0] == kids[3].node && r.children[..2][1] == kids[4].node;
    assert n.keys[..4] == keys;
  }

  lemma {:induction false} CutSeparate(kids: seq<Tree>, m: nat, objects: set<object>)
    requires SeparateAll(kids, objects) && 0 < m < |kids|
    ensures var l, r := FootprintAll(kids[..m]), FootprintAll(kids[m..]);
            l + r <= objects && l !! r && SeparateAll(kids[..m], l) && SeparateAll(kids[m..], r)
  {
  }

  /**
   * Cutting a stored child list in two keeps both parts stored; the left one is followed by the right one's first
   * leaf.
   */
  lemma {:induction false} CutStored(kids: seq<Tree>, m: nat, tail: Node?, objects: set<object>)
    requires StoredAll(kids, tail, objects) && 0 < m < |kids|
    ensures StoredAll(kids[..m], First(kids[m]), FootprintAll(kids[..m]))
    ensures StoredAll(kids[m..], tail, FootprintAll(kids[m..]))
  {
    hide Stored, Footprint, First;
    var a, b := kids[..m], kids[m..];
    forall i | 0 <= i < m ensures Stored(a[i], After(a, i, First(kids[m]))) {
      assert a[i] == kids[i] && After(a, i, First(kids[m])) == After(kids, i, tail);
    }
    forall i | 0 <= i < |b| ensures Stored(b[i], After(b, i, tail)) {
      assert b[i] == kids[m + i] && After(b, i, tail) == After(kids, m + i, tail);
    }
  }

  /** A stored child list stays stored when only the objects of its footprint are counted. */
  lemma {:induction false} Tighten(kids: seq<Tree>, tail: Node?, objects: set<object>)
    requires StoredAll(kids, tail, objects) && SeparateAll(kids, objects)
    ensures FootprintAll(kids) <= objects && StoredAll(kids, tail, FootprintAll(kids))
    ensures SeparateAll(kids, FootprintAll(kids))
  {
  }

  lemma DisjointUnions(x: set<object>, l: set<object>, y: set<object>, r: set<object>, below: set<object>)
    requires l + r <= below && l !! r && x !! below && y !! below && x !! y
    ensures (x + l) !! (y + r)
  {
  }

  lemma {:induction false} MakeStored(n: Node, keys: seq<int>, kids: seq<Tree>, tail: Node?)
    requires Points(n, keys, kids) && StoredAll(kids, tail, FootprintAll(kids))
    requires SeparateAll(kids, FootprintAll(kids)) && n.Own() !! FootprintAll(kids)
    ensures Stored(Make(n, keys, kids), tail) && Separate(Make(n, keys, kids))
    ensures Footprint(Make(n, keys, kids)) == n.Own() + FootprintAll(kids)
    ensures kids != [] ==> First(Make(n, keys, kids)) == First(kids[0])
  {
  }

  /** Splits an over-full internal node together with its child list. */
  method CutInner(n: Node, ghost keys: seq<int>, ghost kids: seq<Tree>, ghost tail: Node?, ghost below: set<object>)
    returns (promoted: int, r: Node, ghost a: Tree, ghost b: Tree)
    requires Points(n, keys, kids) && StoredAll(kids, tail, below) && SeparateAll(kids, below) && n.Own() !! below
    requires |keys| == MAX_KEYS + 1 && |kids| == MAX_KEYS + 2
    modifies n.Own()
    ensures promoted == keys[2] && fresh(r.Own())
    ensures a == Make(n, keys[..2], kids[..3]) && b == Make(r, keys[3..], kids[3..])
    ensures Stored(a, First(b)) && Stored(b, tail)
    ensures Separate(a) && Separate(b)
    ensures Footprint(a) !! Footprint(b)
    ensures Footprint(a) + Footprint(b) <= n.Own() + r.Own() + below
  {
    hide SeparateAll, FootprintAll, Points, StoredAll, Stored, Separate, Footprint, First, Make;
    ghost var lo, hi := FootprintAll(kids[..3]), FootprintAll(kids[3..]);
    CutStored(kids, 3, tail, below);
    CutSeparate(kids, 3, below);
    promoted, r := SplitInner(n, keys, kids);
    a, b := Make(n, keys[..2], kids[..3]), Make(r, keys[3..], kids[3..]);
    assert Stored(a, First(b)) && Separate(a) && Footprint(a) == n.Own() + lo && First(b) == First(kids[3]) by {
      MakeStored(n, keys[..2], kids[..3], First(kids[3]));
      assert r.Own() !! hi;
      MakeStored(r, keys[3..], kids[3..], tail);
    }
    assert Stored(b, tail) && Separate(b) && Footprint(b) == r.Own() + hi by {
      assert r.Own() !! hi;
      MakeStored(r, keys[3..], kids[3..], tail);
    }
    assert Footprint(a) !! Footprint(b) by {
      DisjointUnions(n.Own(), lo, r.Own(), hi, below);
    }
  }

  /** Splits an internal node if its new child list fills the spare slot. */
  method SettleInner(n: Node, budget: nat, ghost keys: seq<int>, ghost kids: seq<Tree>, ghost tail: Node?,
                     ghost below: set<object>)
    returns (ok: bool, promoted: int, right: Node?, left: nat, ghost out: seq<Tree>, ghost objects: set<object>)
    requires Points(n, keys, kids) && StoredAll(kids, tail, below) && SeparateAll(kids, below) && n.Own() !! below
    modifies n.Own()
    ensures ok == (|keys| <= MAX_KEYS || budget > 0)
    ensures ok ==>
              && out == InnerOutcome(n, keys, kids, if right == null then n else right)
              && (|out| == 2 ==> promoted == keys[2]) && left == budget - (|out| - 1)
              && Built(out, tail, n, right, objects) && fresh(objects - (n.Own() + below))
  {
    if n.keyCount <= MAX_KEYS {
      Tighten(kids, tail, below);
      hide Points, StoredAll, SeparateAll, FootprintAll;
      BuiltOne(Make(n, keys, kids), tail);
      return true, 0, null, budget, [Make(n, keys, kids)], Footprint(Make(n, keys, kids));
    }
    if budget == 0 {
      return false, 0, null, 0, [], {};
    }
    assert |keys| == MAX_KEYS + 1 && |kids| == MAX_KEYS + 2;
    var r;
    ghost var a, b;
    hide StoredAll, SeparateAll, Points, Stored, Separate, Built, FootprintAll;
    promoted, r, a, b := CutInner(n, keys, kids, tail, below);
    BuiltTwo(a, b, tail);
    return true, promoted, r, budget - 1, [a, b], Footprint(a) + Footprint(b);
  }

  /** Takes over the two halves of child `c` after it was split below, splitting this node as well when it is full. */
  method AbsorbChild(n: Node, c: nat, sep: int, child: Node, budget: nat,
                     ghost keys: seq<int>, ghost kids: seq<Tree>, ghost kids': seq<Tree>, ghost tail: Node?,
                       ghost below: set<object>)
    returns (ok: bool, promoted: int, right: Node?, left: nat, ghost out: seq<Tree>, ghost objects: set<object>)
    requires Points(n, keys, kids) && c <= |keys| <= MAX_KEYS && |kids'| == |kids| + 1
    requires forall i | 0 <= i <= c :: kids'[i].node == kids[i].node
    requires kids'[c + 1].node == child && forall i | c < i < |kids| :: kids'[i + 1].node == kids[i].node
    requires StoredAll(kids', tail, below) && SeparateAll(kids', below) && n.Own() !! below
    modifies n.Own()
    ensures ok == (|keys| < MAX_KEYS || budget > 0)
    ensures ok ==>
              var keys' := keys[..c] + [sep] + keys[c..];
              && out == InnerOutcome(n, keys', kids', if right == null then n else right)
              && (|out| == 2 ==> promoted == keys'[2]) && left == budget - (|out| - 1)
              && Built(out, tail, n, right, objects) && fresh(objects - (n.Own() + below))
  {
    hide Points, Built, SeparateAll, FootprintAll, InnerOutcome;
    PutChild(n, c, sep, child, keys, kids, kids');
    ok, promoted, right, left, out, objects :=
      SettleInner(n, budget, keys[..c] + [sep] + keys[c..], kids', tail, below);
  }

  /** All children but child `c` are stored. */
  ghost predicate StoredBut(kids: seq<Tree>, c: nat, tail: Node?, objects: set<object>)
    reads objects
  {
    forall i | 0 <= i < |kids| && i != c :: Footprint(kids[i]) <= objects && Stored(kids[i], After(kids, i, tail))
  }

  /** Replacing child `c` by what an insertion made of it gives a stored child list. */
  lemma {:induction false} ReplaceStored(kids: seq<Tree>, c: nat, out: seq<Tree>, tail: Node?, objects: set<object>,
                                         objects': set<object>)
    requires c < |kids| && StoredBut(kids, c, tail, objects)
    requires 1 <= |out| <= 2 && StoredAll(out, After(kids, c, tail), objects') && First(out[0]) == First(kids[c])
    ensures StoredAll(NewKids(kids, c, out), tail, objects + objects')
  {
    hide Stored, Footprint, First;
    var kids' := NewKids(kids, c, out);
    forall i | 0 <= i < |kids'|
      ensures Footprint(kids'[i]) <= objects + objects' && Stored(kids'[i], After(kids', i, tail))
    {
      if i < c {
        assert kids'[i] == kids[i] && After(kids', i, tail) == After(kids, i, tail);
      } else if i < c + |out| {
        assert kids'[i] == out[i - c] && After(kids', i, tail) == After(out, i - c, After(kids, c, tail));
      } else {
        var j := i + 1 - |out|;
        assert kids'[i] == kids[j] && After(kids', i, tail) == After(kids, j, tail);
      }
    }
  }

  lemma {:induction false} ReplaceSeparate(kids: seq<Tree>, c: nat, out: seq<Tree>, objects: set<object>,
                                           objects': set<object>)
    requires c < |kids| && SeparateAll(kids, objects) && 1 <= |out| <= 2 && SeparateAll(out, objects')
    requires forall i | 0 <= i < |kids| && i != c :: Footprint(kids[i]) !! objects'
    ensures SeparateAll(NewKids(kids, c, out), objects + objects')
  {
  }

  /** What is known of child `c` of a stored internal node. */
  lemma {:induction false} ChildReady(t: Tree, c: nat, tail: Node?)
    requires t.Inner? && Stored(t, tail) && Ordered(t) && Filled(t) && Separate(t) && c < |t.kids|
    ensures Ordered(t.kids[c]) && Filled(t.kids[c]) && FilledRoot(t.kids[c]) && Separate(t.kids[c])
    ensures Stored(t.kids[c], After(t.kids, c, tail)) && Footprint(t.kids[c]) <= t.below
    ensures Points(t.node, t.keys, t.kids) && StoredAll(t.kids, tail, t.below)
    ensures SeparateAll(t.kids, t.below) && t.node.Own() !! t.below
  {
    assert Even(t.kids);
  }

  lemma InsertedFirst(t: Tree, key: int, value: int, out: seq<Tree>, sep: int)
    requires Inserted(t, key, value, out, sep)
    ensures 1 <= |out| <= 2 && First(out[0]) == First(t)
  {
  }

  /** Descends into child `c` and leaves the other children and this node's own buffers alone. */
  method InsertIntoChild(n: Node, c: nat, key: int, value: int, budget: nat, ghost t: Tree, ghost tail: Node?)
    returns (status: Status, promoted: int, right: Node?, left: nat, ghost out: seq<Tree>, ghost below: set<object>)
    requires t.Inner? && t.node == n && Stored(t, tail) && Ordered(t) && Filled(t) && Separate(t) && c < |t.kids|
    modifies t.below
    ensures status ==
              (if HasKey(Flat(t.kids[c]), key) then Duplicate else if Needed(t.kids[c], key) <= budget then Added
                else OutOfMemory)
    ensures status == Duplicate ==> unchanged(t.below)
    ensures Points(n, t.keys, t.kids)
    ensures status == Added ==>
              && left == budget - Needed(t.kids[c], key)
              && ChildDone(t, c, key, value, out, promoted, right, tail, below) && fresh(below - t.below)
    decreases t, 0
  {
    hide Inserted, Needed, HasKey, Ordered, Filled, FilledRoot, Flat, Separate, Stored, First, FootprintAll, NewKids,
         ChildDone, Built, Even, SeparateAll;
    ghost var kid := t.kids[c];
    ghost var objects;
    ChildReady(t, c, tail);
    Apart(t.kids, c, t.below);
    status, promoted, right, left, out, objects :=
      InsertIntoNode(n.children[c], key, value, budget, kid, After(t.kids, c, tail));
    below := t.below + objects;
    if status == Added {
      assert StoredBut(t.kids, c, tail, t.below);
      assert objects * t.below <= Footprint(kid);
      FinishChild(t, c, key, value, out, promoted, right, tail, objects);
    }
  }

  /** Children share nothing with child `c`. */
  lemma Apart(kids: seq<Tree>, c: nat, objects: set<object>)
    requires c < |kids| && SeparateAll(kids, objects)
    ensures forall i | 0 <= i < |kids| && i != c ::
              Footprint(kids[i]) <= objects && Footprint(kids[i]) !! Footprint(kids[c])
  {
  }

  /** What an insertion below child `c` leaves: the outcome `out` stored in the child's place. */
  ghost predicate ChildDone(t: Tree, c: nat, key: int, value: int, out: seq<Tree>, sep: int, right: Node?,
                            tail: Node?, below: set<object>)
    requires t.Inner? && c < |t.kids|
    reads below
  {
    && Inserted(t.kids[c], key, value, out, sep)
    && out[0].node == t.kids[c].node && (if |out| == 2 then right == out[1].node else right == null)
    && StoredAll(NewKids(t.kids, c, out), tail, below) && SeparateAll(NewKids(t.kids, c, out), below)
    && t.node.Own() !! below
  }

  lemma FinishChild(t: Tree, c: nat, key: int, value: int, out: seq<Tree>, sep: int, right: Node?, tail: Node?,
                    objects: set<object>)
    requires t.Inner? && c < |t.kids| && StoredBut(t.kids, c, tail, t.below) && SeparateAll(t.kids, t.below)
    requires Inserted(t.kids[c], key, value, out, sep)
    requires Built(out, After(t.kids, c, tail), t.kids[c].node, right, objects)
    requires t.node.Own() !! t.below + objects && objects * t.below <= Footprint(t.kids[c])
    ensures ChildDone(t, c, key, value, out, sep, right, tail, t.below + objects)
  {
    hide Inserted, Stored, Separate, Footprint, NewKids;
    InsertedFirst(t.kids[c], key, value, out, sep);
    ReplaceStored(t.kids, c, out, tail, t.below, objects);
    ReplaceSeparate(t.kids, c, out, t.below, objects);
  }

  /** What the chosen child decides about the whole node. */
  lemma {:induction false} InnerReady(t: Tree, key: int, c: nat, tail: Node?)
    requires t.Inner? && Stored(t, tail) && Ordered(t) && Filled(t) && Slot(t.keys, key, c)
    ensures |t.kids| == |t.keys| + 1 && c == SlotOf(t.keys, key) && Points(t.node, t.keys, t.kids)
    ensures Slot(t.keys, key, c)
    ensures HasKey(Flat(t), key) <==> HasKey(Flat(t.kids[c]), key)
    ensures Needed(t, key) == Needed(t.kids[c], key) + if Splits(t, key) then 1 else 0
    ensures Splits(t, key) == (|t.keys| == MAX_KEYS && Splits(t.kids[c], key))
  {
    SlotUnique(t.keys, key, c);
    SlotDecides(t.keys, t.kids, key, c);
  }

  lemma ChildParts(t: Tree, c: nat, key: int, value: int, out: seq<Tree>, sep: int, right: Node?, tail: Node?,
                   below: set<object>)
    requires t.Inner? && c < |t.kids| && ChildDone(t, c, key, value, out, sep, right, tail, below)
    ensures Inserted(t.kids[c], key, value, out, sep) && 1 <= |out| <= 2
    ensures out[0].node == t.kids[c].node && (if |out| == 2 then right == out[1].node else right == null)
    ensures StoredAll(NewKids(t.kids, c, out), tail, below) && SeparateAll(NewKids(t.kids, c, out), below)
    ensures t.node.Own() !! below
  {
  }

  /** Lets an internal node absorb what the insertion made of child `c`. */
  method TakeOver(n: Node, c: nat, key: int, ghost value: int, sep: int, r: Node?, budget: nat,
                  ghost t: Tree, ghost kidOut: seq<Tree>, ghost tail: Node?, ghost below: set<object>)
    returns (ok: bool, promoted: int, right: Node?, left: nat, ghost out: seq<Tree>, ghost objects: set<object>)
    requires t.Inner? && t.node == n && Ordered(t) && Filled(t) && Slot(t.keys, key, c) && !HasKey(Flat(t), key)
    requires |t.kids| == |t.keys| + 1 && Points(n, t.keys, t.kids) && Inserted(t.kids[c], key, value, kidOut, sep)
    requires kidOut[0].node == t.kids[c].node && (if |kidOut| == 2 then r == kidOut[1].node else r == null)
    requires StoredAll(NewKids(t.kids, c, kidOut), tail, below) && SeparateAll(NewKids(t.kids, c, kidOut), below)
    requires n.Own() !! below
    modifies n.Own()
    ensures ok == (!Splits(t, key) || budget > 0)
    ensures ok ==>
              && Inserted(t, key, value, out, promoted) && left == budget - (if Splits(t, key) then 1 else 0)
              && Built(out, tail, n, right, objects) && fresh(objects - (n.Own() + below))
  {
    hide Inserted, HasKey, Ordered, Filled, Flat, Separate, Stored, StoredAll, SeparateAll, FootprintAll, Splits,
         Built, Points, NewKids, Make;
    ghost var kids := NewKids(t.kids, c, kidOut);
    TakeOverNodes(t, key, c, value, kidOut, sep);
    if r == null {
      AbsorbedInserts(t, key, value, c, kidOut, sep, n);
      KeepNode(n, t.keys, t.kids, kids, tail, below);
      return true, 0, null, budget, [Make(n, t.keys, kids)], n.Own() + FootprintAll(kids);
    }
    ok, promoted, right, left, out, objects := AbsorbChild(n, c, sep, r, budget, t.keys, t.kids, kids, tail, below);
    if ok {
      AbsorbedInserts(t, key, value, c, kidOut, sep, if right == null then n else right);
      if |out| == 1 {
        AnySeparator(t, key, value, out, 0, promoted);
      }
    }
  }

  /** Without a split the separator does not matter. */
  lemma AnySeparator(t: Tree, key: int, value: int, out: seq<Tree>, sep: int, sep': int)
    requires Inserted(t, key, value, out, sep) && |out| == 1
    ensures Inserted(t, key, value, out, sep')
  {
  }

  /** A node whose child did not split keeps its buffers. */
  lemma KeepNode(n: Node, keys: seq<int>, kids: seq<Tree>, kids': seq<Tree>, tail: Node?, below: set<object>)
    requires Points(n, keys, kids) && |kids'| == |kids| && forall i | 0 <= i < |kids| :: kids'[i].node == kids[i].node
    requires StoredAll(kids', tail, below) && SeparateAll(kids', below) && n.Own() !! below
    ensures FootprintAll(kids') <= below
    ensures Built([Make(n, keys, kids')], tail, n, null, n.Own() + FootprintAll(kids'))
  {
    hide Stored, Separate, StoredAll, SeparateAll, FootprintAll, Built, Points;
    Tighten(kids', tail, below);
    KeepPoints(n, keys, kids, kids');
    MakeStored(n, keys, kids', tail);
    BuiltOne(Make(n, keys, kids'), tail);
  }

  /** A child list with the same nodes is pointed at by the same buffers. */
  lemma KeepPoints(n: Node, keys: seq<int>, kids: seq<Tree>, kids': seq<Tree>)
    requires Points(n, keys, kids) && |kids'| == |kids| && forall i | 0 <= i < |kids| :: kids'[i].node == kids[i].node
    ensures Points(n, keys, kids')
  {
  }

  /** Which nodes the new child list consists of, and when it overflows. */
  lemma {:induction false} TakeOverNodes(t: Tree, key: int, c: nat, value: int, out: seq<Tree>, sep: int)
    requires t.Inner? && Ordered(t) && Filled(t) && Slot(t.keys, key, c) && |t.kids| == |t.keys| + 1
    requires Inserted(t.kids[c], key, value, out, sep) && out[0].node == t.kids[c].node
    ensures var kids := NewKids(t.kids, c, out);
            && 1 <= |out| <= 2 && |t.keys| <= MAX_KEYS && c <= |t.keys| && |kids| == |t.kids| + |out| - 1
            && Splits(t, key) == (|t.keys| == MAX_KEYS && |out| == 2)
            && (forall i | 0 <= i <= c :: kids[i].node == t.kids[i].node)
            && (|out| == 2 ==> kids[c + 1] == out[1])
            && (forall i | c < i < |t.kids| :: kids[i + |out| - 1].node == t.kids[i].node)
  {
    SlotUnique(t.keys, key, c);
  }

  method ChooseChild(n: Node, key: int, ghost t: Tree, ghost tail: Node?) returns (c: nat)
    requires t.Inner? && t.node == n && Stored(t, tail) && Ordered(t)
    ensures Slot(t.keys, key, c)
  {
    c := n.FindChildIndex(key);
    assert forall i | 0 <= i < |t.keys| :: n.keys[i] == n.keys[..|t.keys|][i];
  }

  /** Inserts below an internal node and absorbs a split of the child. */
  method InsertIntoInternal(n: Node, key: int, value: int, budget: nat, ghost t: Tree, ghost tail: Node?)
    returns (status: Status, promoted: int, right: Node?, left: nat, ghost out: seq<Tree>, ghost objects: set<object>)
    requires t.Inner? && t.node == n && Stored(t, tail) && Ordered(t) && Filled(t) && Separate(t)
    modifies Footprint(t)
    ensures status ==
              (if HasKey(Flat(t), key) then Duplicate else if Needed(t, key) <= budget then Added else OutOfMemory)
    ensures status == Duplicate ==> unchanged(Footprint(t))
    ensures status == Added ==>
              && Inserted(t, key, value, out, promoted) && left == budget - Needed(t, key)
              && Built(out, tail, n, right, objects) && fresh(objects - Footprint(t))
    decreases t, 1
  {
    hide Inserted, Ordered, Filled, Stored, Separate, ChildDone, Built, Points, Flat, HasKey, Needed, Splits, Slot,
         SlotOf;
    var c := ChooseChild(n, key, t, tail);
    InnerReady(t, key, c, tail);
    var ok, sep, r;
    ghost var kidOut, below;
    status, sep, r, left, kidOut, below := InsertIntoChild(n, c, key, value, budget, t, tail);
    if status != Added {
      return status, 0, null, 0, [], {};
    }
    ok, promoted, right, left, out, objects := Absorb(n, c, key, value, sep, r, left, t, kidOut, tail, below);
    if !ok {
      status := OutOfMemory;
    }
  }

  method Absorb(n: Node, c: nat, key: int, ghost value: int, sep: int, r: Node?, budget: nat,
                ghost t: Tree, ghost kidOut: seq<Tree>, ghost tail: Node?, ghost below: set<object>)
    returns (ok: bool, promoted: int, right: Node?, left: nat, ghost out: seq<Tree>, ghost objects: set<object>)
    requires t.Inner? && t.node == n && Ordered(t) && Filled(t) && Slot(t.keys, key, c) && !HasKey(Flat(t), key)
    requires |t.kids| == |t.keys| + 1 && Points(n, t.keys, t.kids)
    requires ChildDone(t, c, key, value, kidOut, sep, r, tail, below)
    modifies n.Own()
    ensures ok == (!Splits(t, key) || budget > 0)
    ensures ok ==>
              && Inserted(t, key, value, out, promoted) && left == budget - (if Splits(t, key) then 1 else 0)
              && Built(out, tail, n, right, objects) && fresh(objects - (n.Own() + below))
  {
    hide Inserted, Ordered, Filled, Separate, ChildDone, Built, Points, Flat, HasKey, Splits, StoredAll, SeparateAll,
         NewKids;
    ChildParts(t, c, key, value, kidOut, sep, r, tail, below);
    ok, promoted, right, left, out, objects := TakeOver(n, c, key, value, sep, r, budget, t, kidOut, tail, below);
  }

  /** Inserts into a subtree, whatever its node's kind. */
  method InsertIntoNode(n: Node, key: int, value: int, budget: nat, ghost t: Tree, ghost tail: Node?)
    returns (status: Status, promoted: int, right: Node?, left: nat, ghost out: seq<Tree>, ghost objects: set<object>)
    requires t.node == n && Stored(t, tail) && Ordered(t) && FilledRoot(t) && Separate(t)
    modifies Footprint(t)
    ensures status ==
              (if HasKey(Flat(t), key) then Duplicate else if Needed(t, key) <= budget then Added else OutOfMemory)
    ensures status == Duplicate ==> unchanged(Footprint(t))
    ensures status == Added ==>
              && Inserted(t, key, value, out, promoted) && left == budget - Needed(t, key)
              && Built(out, tail, n, right, objects) && fresh(objects - Footprint(t))
    decreases t, 2
  {
    hide Inserted, Built, Needed, HasKey, Ordered, Flat;
    if n.isLeaf {
      status, promoted, right, left, out, objects := InsertIntoLeaf(n, key, value, budget, t, tail);
    } else {
      status, promoted, right, left, out, objects := InsertIntoInternal(n, key, value, budget, t, tail);
    }
  }

  /** The tree handle: a root pointer, with its value kept as ghost state. */
  class BPlusTree {
    var root: Node?
    ghost var shape: Option<Tree>
    ghost var Repr: set<object>

    ghost predicate Valid()
      reads this, Repr
    {
      && this in Repr
      && (shape.None? <==> root == null)
      && (shape.Some? ==>
            && shape.value.node == root && Footprint(shape.value) <= Repr && this !in Footprint(shape.value)
            && Stored(shape.value, null) && Legal(shape.value))
    }

    /** The stored pairs in key order. */
    ghost function Contents(): seq<Pair>
      reads this
    {
      if shape.Some? then Flat(shape.value) else []
    }

    ghost function Nodes(): nat
      reads this
    {
      if shape.Some? then NodeCount(shape.value) else 0
    }

    /** How many nodes inserting `key` allocates. */
    ghost function Cost(key: int): nat
      reads this
    {
      if shape.None? then 1 else Needed(shape.value, key) + if Splits(shape.value, key) then 1 else 0
    }

    /** The nodes needed for one more pair never exceed the pairs then stored. */
    lemma CostBound(key: int)
      requires Valid() && !HasKey(Contents(), key)
      ensures Nodes() + Cost(key) <= |Contents()| + 1
    {
      if shape.Some? {
        var t := shape.value;
        var out, sep := SomeInserted(t, key, 0);
        RootInserted(t, key, 0, out, sep);
        FlatSorted(t);
        InsKeeps(Flat(t), key, 0);
        if |out| == 2 {
          assert Even(out);
          TreeFacts.NodeBoundAll(out);
        } else {
          assert out == [out[0]];
          FlatOne(out[0]);
          if Filled(out[0]) {
            TreeFacts.NodeBound(out[0]);
          }
        }
      }
    }

    lemma ContentsSorted()
      requires Valid()
      ensures Sorted(Contents())
    {
      if shape.Some? {
        FlatSorted(shape.value);
      }
    }

    constructor ()
      ensures Valid() && fresh(Repr) && Contents() == [] && Nodes() == 0
    {
      root, shape, Repr := null, None, {this};
    }

    /** Drops all nodes, whatever state a failed insertion left them in. */
    method Free()
      modifies this
      ensures Valid() && Repr == {this} && Contents() == [] && Nodes() == 0
    {
      root, shape, Repr := null, None, {this};
    }

    /** The first pair of an empty tree. */
    method InsertFirst(key: int, value: int)
      requires root == null
      modifies this
      ensures Valid() && Contents() == [(key, value)] && Nodes() == 1 && fresh(Repr - {this})
    {
      root := new Node(true);
      root.keys[0], root.values[0], root.keyCount := key, value, 1;
      shape := Some(Leaf(root, [(key, value)]));
      Repr := {this} + root.Own();
    }

    /** Adds a pair; the root grows when the whole path to the leaf was full. */
    method Insert(key: int, value: int, budget: nat) returns (status: Status, left: nat)
      requires Valid()
      modifies Repr
      ensures fresh(Repr - old(Repr)) && this in Repr
      ensures status ==
                (if HasKey(old(Contents()), key) then Duplicate else if old(Cost(key)) <= budget then Added
                  else OutOfMemory)
      ensures status == Duplicate ==> Valid() && unchanged(old(Repr))
      ensures status == Added ==> Valid() && Contents() == Ins(old(Contents()), key, value)
      ensures status == Added ==> left == budget - old(Cost(key)) && Nodes() == old(Nodes()) + old(Cost(key))
    {
      if root == null {
        if budget == 0 {
          return OutOfMemory, 0;
        }
        hide Stored, Legal;
        InsertFirst(key, value);
        return Added, budget - 1;
      }
      hide *;
      status, left := InsertNonEmpty(key, value, budget);
    }

    /** Installs a root and its value. */
    method Adopt(n: Node, ghost t: Tree)
      requires t.node == n && Stored(t, null) && Legal(t) && this !in Footprint(t)
      modifies this
      ensures Valid() && shape == Some(t) && Repr == {this} + Footprint(t)
    {
      root, shape, Repr := n, Some(t), {this} + Footprint(t);
    }

    method InsertNonEmpty(key: int, value: int, budget: nat) returns (status: Status, left: nat)
      requires Valid() && root != null
      modifies Repr
      ensures fresh(Repr - old(Repr)) && this in Repr
      ensures status ==
                (if HasKey(old(Contents()), key) then Duplicate else if old(Cost(key)) <= budget then Added
                  else OutOfMemory)
      ensures status == Duplicate ==> Valid() && unchanged(old(Repr))
      ensures status == Added ==> Valid() && Contents() == Ins(old(Contents()), key, value)
      ensures status == Added ==> left == budget - old(Cost(key)) && Nodes() == old(Nodes()) + old(Cost(key))
    {
      var n;
      ghost var t, t' := shape.value, shape.value;
      status, n, left, t' := InsertAtRoot(root, key, value, budget, t);
      if status == Added {
        Adopt(n, t');
      }
    }

    /** Descends to the leaf the key selects and searches it; `steps` counts the rounds of the descent. */
    method Search(key: int) returns (found: bool, value: int, ghost steps: nat)
      requires Valid()
      ensures found == HasKey(Contents(), key)
      ensures found ==> (key, value) in Contents()
      ensures steps > 0 ==> TreeFacts.Pow2(steps + 1) <= |Contents()|
    {
      if root == null {
        return false, 0, 0;
      }
      found, value, steps := SearchFrom(root, key, shape.value, null);
      if shape.value.Inner? {
        TreeFacts.HeightBound(shape.value);
      }
    }
  }

  /** Puts a new root above the two halves of a split root. */
  method NewRoot(l: Node, r: Node, promoted: int, ghost out: seq<Tree>, ghost objects: set<object>)
    returns (n: Node, ghost t: Tree)
    requires |out| == 2 && Built(out, null, l, r, objects) && OrderedAll([promoted], out) && FilledAll(out)
    ensures t.node == n && Stored(t, null) && Legal(t) && fresh(Footprint(t) - objects)
    ensures Flat(t) == FlatAll(out) && NodeCount(t) == 1 + NodeCountAll(out)
  {
    hide Stored, Separate, Ordered, OrderedAll, Filled, FilledRoot, Flat, NodeCount, FilledAll, SeparateAll,
         StoredAll, FootprintAll;
    n := new Node(false);
    n.keys[0] := promoted;
    n.children[0] := l;
    n.children[1] := r;
    n.keyCount := 1;
    Tighten(out, null, objects);
    t := Make(n, [promoted], out);
    assert Points(n, [promoted], out);
    assert Stored(t, null) && Separate(t) && Footprint(t) == n.Own() + FootprintAll(out) by {
      MakeStored(n, [promoted], out, null);
    }
    MakeOrdered(n, promoted, out);
  }

  lemma {:induction false} MakeOrdered(n: Node, promoted: int, out: seq<Tree>)
    requires |out| == 2 && OrderedAll([promoted], out) && FilledAll(out)
    ensures Ordered(Make(n, [promoted], out)) && FilledRoot(Make(n, [promoted], out))
    ensures Flat(Make(n, [promoted], out)) == FlatAll(out)
    ensures NodeCount(Make(n, [promoted], out)) == 1 + NodeCountAll(out)
  {
  }

  /** What follows for the whole tree from an insertion below its root. */
  lemma {:induction false} RootInserted(t: Tree, key: int, value: int, out: seq<Tree>, promoted: int)
    requires Inserted(t, key, value, out, promoted)
    ensures |out| == 2 ==> OrderedAll([promoted], out) && FilledAll(out)
    ensures |out| == 1 ==> Ordered(out[0]) && FilledRoot(out[0])
    ensures |out| == if Splits(t, key) then 2 else 1
    ensures FlatAll(out) == Ins(Flat(t), key, value) && NodeCountAll(out) == NodeCount(t) + Needed(t, key)
  {
  }

  /** An insertion outcome exists for every tree and new key, before any node is allocated. */
  lemma {:induction false} SomeInserted(t: Tree, key: int, value: int) returns (out: seq<Tree>, sep: int)
    requires Ordered(t) && FilledRoot(t) && !HasKey(Flat(t), key)
    ensures Inserted(t, key, value, out, sep)
    decreases t
  {
    if t.Leaf? {
      var at := Rank(t.pairs, key);
      LeafInserts(t, key, value, at, t.node);
      out := LeafOutcome(t, key, value, at, t.node);
      sep := if |out| == 2 then out[1].pairs[0].0 else 0;
    } else {
      var c := SlotOf(t.keys, key);
      SlotDecides(t.keys, t.kids, key, c);
      assert Filled(t) && FilledAll(t.kids) && Even(t.kids);
      out, sep := SomeInserted(t.kids[c], key, value);
      AbsorbedInserts(t, key, value, c, out, sep, t.node);
      var keys := NewKeys(t.keys, c, out, sep);
      sep := if |keys| == MAX_KEYS + 1 then keys[2] else 0;
      out := InnerOutcome(t.node, keys, NewKids(t.kids, c, out), t.node);
    }
  }

  /** Inserts into a non-empty tree and returns its possibly new root. */
  method InsertAtRoot(root: Node, key: int, value: int, budget: nat, ghost t: Tree)
    returns (status: Status, n: Node, left: nat, ghost t': Tree)
    requires t.node == root && Stored(t, null) && Ordered(t) && FilledRoot(t) && Separate(t)
    modifies Footprint(t)
    ensures status == (if HasKey(Flat(t), key) then Duplicate
                       else if Needed(t, key) + (if Splits(t, key) then 1 else 0) <= budget then Added else OutOfMemory)
    ensures status == Duplicate ==> unchanged(Footprint(t))
    ensures status == Added ==> t'.node == n && Stored(t', null) && Legal(t') && fresh(Footprint(t') - Footprint(t))
    ensures status == Added ==> Flat(t') == Ins(Flat(t), key, value)
    ensures status == Added ==> NodeCount(t') == NodeCount(t) + Needed(t, key) + (if Splits(t, key) then 1 else 0)
    ensures status == Added ==> left == budget - Needed(t, key) - (if Splits(t, key) then 1 else 0)
  {
    hide Inserted, HasKey, Ordered, Flat, FlatAll, Needed, Splits, FilledRoot, Filled, NodeCountAll, NodeCount,
         OrderedAll, FilledAll, Stored, Separate, Built;
    var promoted, right;
    ghost var out, objects;
    n, t' := root, t;
    status, promoted, right, left, out, objects := InsertIntoNode(root, key, value, budget, t, null);
    if status != Added {
      return;
    }
    RootInserted(t, key, value, out, promoted);
    var ok;
    ok, n, left, t' := SettleRoot(root, right, promoted, left, out, objects);
    if !ok {
      status := OutOfMemory;
    }
  }

  /** Grows the tree by one level when the root was split. */
  method SettleRoot(root: Node, right: Node?, promoted: int, budget: nat, ghost out: seq<Tree>,
                    ghost objects: set<object>)
    returns (ok: bool, n: Node, left: nat, ghost t: Tree)
    requires Built(out, null, root, right, objects)
    requires if |out| == 2 then OrderedAll([promoted], out) && FilledAll(out) else Ordered(out[0]) && FilledRoot(out[0])
    ensures ok == (|out| == 1 || budget > 0)
    ensures ok ==> t.node == n && Stored(t, null) && Legal(t) && fresh(Footprint(t) - objects)
    ensures ok ==>
              Flat(t) == FlatAll(out) && NodeCount(t) == NodeCountAll(out) + (|out| - 1) && left == budget - (|out| - 1)
  {
    n, left, t := root, budget, out[0];
    if right == null {
      assert out == [out[0]];
      FlatOne(out[0]);
      return true, root, budget, out[0];
    }
    if budget == 0 {
      return false, root, 0, out[0];
    }
    n, t := NewRoot(root, right, promoted, out, objects);
    return true, n, budget - 1, t;
  }

  /** Descends to the leaf the key selects. */
  method FindLeaf(root: Node, key: int, ghost t: Tree, ghost tail: Node?)
    returns (leaf: Node, ghost l: Tree, ghost after: Node?, ghost steps: nat)
    requires t.node == root && Stored(t, tail) && Ordered(t)
    ensures l.Leaf? && l.node == leaf && Stored(l, after)
    ensures HasKey(Flat(l), key) == HasKey(Flat(t), key) && forall v :: (key, v) in Flat(l) <==> (key, v) in Flat(t)
    ensures steps == Height(t)
  {
    leaf, l, after, steps := root, t, tail, 0;
    while !leaf.isLeaf
      invariant leaf == l.node && Stored(l, after) && Ordered(l)
      invariant HasKey(Flat(l), key) == HasKey(Flat(t), key)
      invariant forall v :: (key, v) in Flat(l) <==> (key, v) in Flat(t)
      invariant steps + Height(l) == Height(t)
      decreases l
    {
      var c := leaf.FindChildIndex(key);
      Descend(l, key, c, after);
      hide HasKey, Flat, Ordered, Stored;
      leaf, l, after, steps := leaf.children[c], l.kids[c], After(l.kids, c, after), steps + 1;
    }
  }

  lemma {:induction false} Descend(t: Tree, key: int, c: nat, tail: Node?)
    requires t.Inner? && Stored(t, tail) && Ordered(t) && Slot(t.keys, key, c)
    ensures c < |t.kids| && t.node.Shaped() && t.node.children[c] == t.kids[c].node
    ensures Stored(t.kids[c], After(t.kids, c, tail)) && Ordered(t.kids[c]) && Height(t) == 1 + Height(t.kids[c])
    ensures HasKey(Flat(t.kids[c]), key) == HasKey(Flat(t), key)
    ensures forall v :: (key, v) in Flat(t.kids[c]) <==> (key, v) in Flat(t)
  {
    assert Even(t.kids);
    SlotDecides(t.keys, t.kids, key, c);
  }

  /** Searches below a node: finds the key exactly if it is stored, and then its value. */
  method SearchFrom(root: Node, key: int, ghost t: Tree, ghost tail: Node?)
    returns (found: bool, value: int, ghost steps: nat)
    requires t.node == root && Stored(t, tail) && Ordered(t)
    ensures found == HasKey(Flat(t), key)
    ensures found ==> (key, value) in Flat(t)
    ensures steps == Height(t)
  {
    var leaf;
    ghost var l, after;
    leaf, l, after, steps := FindLeaf(root, key, t, tail);
    var index := 0;
    while index < leaf.keyCount
      invariant index <= leaf.keyCount && forall i | 0 <= i < index :: l.pairs[i].0 != key
    {
      if leaf.keys[index] == key {
        assert l.pairs[index] in Flat(l);
        return true, leaf.values[index], steps;
      }
      index := index + 1;
    }
    return false, 0, steps;
  }
}
