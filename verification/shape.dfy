/** The value of a B+ tree: which nodes it is made of, what they hold, and when that is a legal tree. */
module Shape {
  import opened Pairs
  import opened Nodes

  /** A tree annotated with the heap nodes that store it; `below` holds the objects of all children. */
  datatype Tree =
    | Leaf(node: Node, pairs: seq<Pair>)
    | Inner(node: Node, keys: seq<int>, kids: seq<Tree>, below: set<object>)

  /** All pairs from left to right. */
  ghost function Flat(t: Tree): seq<Pair> {
    match t
    case Leaf(_, pairs) => pairs
    case Inner(_, _, kids, _) => FlatAll(kids)
  }

  ghost function FlatAll(kids: seq<Tree>): seq<Pair> {
    if kids == [] then [] else Flat(kids[0]) + FlatAll(kids[1..])
  }

  /** All leaf nodes from left to right. */
  ghost function Leaves(t: Tree): seq<Node> {
    match t
    case Leaf(n, _) => [n]
    case Inner(_, _, kids, _) => LeavesAll(kids)
  }

  ghost function LeavesAll(kids: seq<Tree>): seq<Node> {
    if kids == [] then [] else Leaves(kids[0]) + LeavesAll(kids[1..])
  }

  ghost function First(t: Tree): Node {
    match t
    case Leaf(n, _) => n
    case Inner(n, _, kids, _) => if kids == [] then n else First(kids[0])
  }

  /** Number of levels above the leaves. */
  ghost function Height(t: Tree): nat {
    match t
    case Leaf(_, _) => 0
    case Inner(_, _, kids, _) => if kids == [] then 0 else 1 + Height(kids[0])
  }

  ghost function NodeCount(t: Tree): nat {
    match t
    case Leaf(_, _) => 1
    case Inner(_, _, kids, _) => 1 + NodeCountAll(kids)
  }

  ghost function NodeCountAll(kids: seq<Tree>): nat {
    if kids == [] then 0 else NodeCount(kids[0]) + NodeCountAll(kids[1..])
  }

  /** All heap objects of a tree. */
  ghost function Footprint(t: Tree): set<object> {
    match t
    case Leaf(n, _) => n.Own()
    case Inner(n, _, _, below) => n.Own() + below
  }

  ghost function FootprintAll(kids: seq<Tree>): set<object> {
    set i, o | 0 <= i < |kids| && o in Footprint(kids[i]) :: o
  }

  /** No object is used twice. */
  ghost predicate Separate(t: Tree) {
    t.Inner? ==> SeparateAll(t.kids, t.below) && t.node.Own() !! t.below
  }

  ghost predicate SeparateAll(kids: seq<Tree>, objects: set<object>) {
    && (forall i | 0 <= i < |kids| :: Separate(kids[i]) && Footprint(kids[i]) <= objects)
    && (forall i, j | 0 <= i < j < |kids| :: Footprint(kids[i]) !! Footprint(kids[j]))
  }

  /** Search order and balance: children in separator order, all at one height. */
  ghost predicate Ordered(t: Tree) {
    match t
    case Leaf(_, pairs) => Sorted(pairs)
    case Inner(_, keys, kids, _) => OrderedAll(keys, kids)
  }

  ghost predicate OrderedAll(keys: seq<int>, kids: seq<Tree>)
    decreases kids, 1
  {
    |kids| == |keys| + 1 && Increasing(keys) && Even(kids) && BoundedAbove(keys, kids) && BoundedBelow(keys, kids)
  }

  ghost predicate Increasing(keys: seq<int>) {
    forall i, j | 0 <= i < j < |keys| :: keys[i] < keys[j]
  }

  ghost predicate Even(kids: seq<Tree>)
    decreases kids, 0
  {
    forall i | 0 <= i < |kids| :: Ordered(kids[i]) && Height(kids[i]) == Height(kids[0])
  }

  ghost predicate BoundedAbove(keys: seq<int>, kids: seq<Tree>) {
    |kids| == |keys| + 1 && forall i | 0 <= i < |keys| :: Below(Flat(kids[i]), keys[i])
  }

  ghost predicate BoundedBelow(keys: seq<int>, kids: seq<Tree>) {
    |kids| == |keys| + 1 && forall i | 0 < i < |kids| :: AtLeast(Flat(kids[i]), keys[i - 1])
  }

  /** Occupancy: leaves below the root hold 2 to 3 pairs, internal nodes 1 to 3 separators. */
  ghost predicate Filled(t: Tree) {
    match t
    case Leaf(_, pairs) => 2 <= |pairs| <= MAX_KEYS
    case Inner(_, keys, kids, _) => 1 <= |keys| <= MAX_KEYS && FilledAll(kids)
  }

  ghost predicate FilledAll(kids: seq<Tree>) {
    forall i | 0 <= i < |kids| :: Filled(kids[i])
  }

  /** A root leaf may hold a single pair. */
  ghost predicate FilledRoot(t: Tree) {
    if t.Leaf? then 1 <= |t.pairs| <= MAX_KEYS else Filled(t)
  }

  ghost predicate Legal(t: Tree) {
    Ordered(t) && FilledRoot(t) && Separate(t)
  }

  /** The heap stores exactly this tree, with the leaves chained by `next` and the last one pointing at `tail`. */
  ghost predicate Stored(t: Tree, tail: Node?)
    reads Footprint(t)
    decreases t, 1
  {
    match t
    case Leaf(n, pairs) =>
      && n.Shaped() && n.isLeaf && n.keyCount == |pairs| <= MAX_KEYS + 1 && n.next == tail
      && (forall i | 0 <= i < |pairs| :: n.keys[i] == pairs[i].0 && n.values[i] == pairs[i].1)
    case Inner(n, keys, kids, below) => Points(n, keys, kids) && StoredAll(kids, tail, below)
  }

  /** An internal node whose own buffers hold these separators and pointers to these children. */
  ghost predicate Points(n: Node, keys: seq<int>, kids: seq<Tree>)
    reads n.Own()
  {
    && n.Shaped() && !n.isLeaf && n.keyCount == |keys| <= MAX_KEYS + 1 && |kids| == |keys| + 1
    && n.keys[..|keys|] == keys
    && forall i | 0 <= i < |kids| :: n.children[i] == kids[i].node
  }

  ghost predicate StoredAll(kids: seq<Tree>, tail: Node?, objects: set<object>)
    reads objects
    decreases kids, 0
  {
    forall i | 0 <= i < |kids| :: Footprint(kids[i]) <= objects && Stored(kids[i], After(kids, i, tail))
  }

  /** The leaf that follows child `i`. */
  ghost function After(kids: seq<Tree>, i: nat, tail: Node?): Node? {
    if i + 1 < |kids| then First(kids[i + 1]) else tail
  }

  // ---- concatenation ----

  lemma {:induction false} FlatConcat(a: seq<Tree>, b: seq<Tree>)
    ensures FlatAll(a + b) == FlatAll(a) + FlatAll(b)
    ensures NodeCountAll(a + b) == NodeCountAll(a) + NodeCountAll(b)
  {
    if a == [] {
      assert a + b == b;
    } else {
      assert (a + b)[1..] == a[1..] + b;
      FlatConcat(a[1..], b);
    }
  }

  lemma {:induction false} FlatOne(t: Tree)
    ensures FlatAll([t]) == Flat(t) && NodeCountAll([t]) == NodeCount(t)
  {
  }

  /** The pairs of the children on either side of child `i`. */
  lemma {:induction false} FlatAround(kids: seq<Tree>, i: nat)
    requires i < |kids|
    ensures FlatAll(kids) == FlatAll(kids[..i]) + Flat(kids[i]) + FlatAll(kids[i + 1..])
    ensures NodeCountAll(kids) == NodeCountAll(kids[..i]) + NodeCount(kids[i]) + NodeCountAll(kids[i + 1..])
  {
    assert kids == kids[..i] + ([kids[i]] + kids[i + 1..]);
    FlatConcat(kids[..i], [kids[i]] + kids[i + 1..]);
    FlatConcat([kids[i]], kids[i + 1..]);
    FlatOne(kids[i]);
  }

  lemma {:induction false} AllBelow(kids: seq<Tree>, k: int)
    requires forall i | 0 <= i < |kids| :: Below(Flat(kids[i]), k)
    ensures Below(FlatAll(kids), k)
  {
    if kids != [] {
      AllBelow(kids[1..], k);
    }
  }

  lemma {:induction false} AllAtLeast(kids: seq<Tree>, k: int)
    requires forall i | 0 <= i < |kids| :: AtLeast(Flat(kids[i]), k)
    ensures AtLeast(FlatAll(kids), k)
  {
    if kids != [] {
      AllAtLeast(kids[1..], k);
    }
  }

  /** Everything left of separator `m` is below it, everything right of it is not. */
  lemma {:induction false} AroundSeparator(keys: seq<int>, kids: seq<Tree>, m: nat)
    requires OrderedAll(keys, kids) && m < |keys|
    ensures Below(FlatAll(kids[..m + 1]), keys[m])
    ensures AtLeast(FlatAll(kids[m + 1..]), keys[m])
  {
    hide Flat, FlatAll, Even, Below, AtLeast;
    var low, high := kids[..m + 1], kids[m + 1..];
    LowBounds(keys, kids, m);
    HighBounds(keys, kids, m);
    AllBelow(low, keys[m]);
    AllAtLeast(high, keys[m]);
  }

  lemma LowBounds(keys: seq<int>, kids: seq<Tree>, m: nat)
    requires OrderedAll(keys, kids) && m < |keys|
    ensures forall i | 0 <= i < m + 1 :: Below(Flat(kids[i]), keys[m])
  {
  }

  lemma HighBounds(keys: seq<int>, kids: seq<Tree>, m: nat)
    requires OrderedAll(keys, kids) && m < |keys|
    ensures forall i | m + 1 <= i < |kids| :: AtLeast(Flat(kids[i]), keys[m])
  {
  }

  /** The child slot for `key`: `c` separators are not above it and the next one is. */
  ghost predicate Slot(keys: seq<int>, key: int, c: nat) {
    c <= |keys| && (forall i | 0 <= i < c :: keys[i] <= key) && (c < |keys| ==> key < keys[c])
  }

  lemma {:induction false} AroundSlot(keys: seq<int>, kids: seq<Tree>, key: int, c: nat)
    requires OrderedAll(keys, kids) && Slot(keys, key, c)
    ensures Below(FlatAll(kids[..c]), key)
    ensures AtLeast(FlatAll(kids[c + 1..]), key + 1)
  {
    if c > 0 {
      AroundSeparator(keys, kids, c - 1);
    }
    if c < |keys| {
      AroundSeparator(keys, kids, c);
    } else {
      assert kids[c + 1..] == [];
    }
  }

  /** A key is in the tree exactly if it is in the child its slot selects. */
  lemma {:induction false} SlotDecides(keys: seq<int>, kids: seq<Tree>, key: int, c: nat)
    requires OrderedAll(keys, kids) && Slot(keys, key, c)
    ensures forall v :: (key, v) in FlatAll(kids) <==> (key, v) in Flat(kids[c])
    ensures HasKey(FlatAll(kids), key) <==> HasKey(Flat(kids[c]), key)
  {
    AroundSlot(keys, kids, key, c);
    FlatAround(kids, c);
    KeyInMiddle(FlatAll(kids[..c]), Flat(kids[c]), FlatAll(kids[c + 1..]), key);
  }

  /** An ordered tree lists its keys in strictly increasing order. */
  lemma {:induction false} FlatSorted(t: Tree)
    requires Ordered(t)
    ensures Sorted(Flat(t))
    decreases t
  {
    if t.Inner? {
      assert Even(t.kids);
      forall i | 0 <= i < |t.kids| ensures Sorted(Flat(t.kids[i])) {
        FlatSorted(t.kids[i]);
      }
      FlatAllSorted(t.keys, t.kids, |t.kids|);
      assert t.kids[..|t.kids|] == t.kids;
    }
  }

  lemma {:induction false} FlatAllSorted(keys: seq<int>, kids: seq<Tree>, n: nat)
    requires OrderedAll(keys, kids) && n <= |kids|
    requires forall i | 0 <= i < |kids| :: Sorted(Flat(kids[i]))
    ensures Sorted(FlatAll(kids[..n]))
  {
    if n > 0 {
      hide FlatAll, Flat, NodeCountAll, OrderedAll, Sorted, Below, AtLeast;
      FlatAllSorted(keys, kids, n - 1);
      assert kids[..n] == kids[..n - 1] + [kids[n - 1]];
      FlatConcat(kids[..n - 1], [kids[n - 1]]);
      FlatOne(kids[n - 1]);
      if n > 1 {
        LastBounds(keys, kids, n);
        SortedConcat(FlatAll(kids[..n - 1]), Flat(kids[n - 1]), keys[n - 2]);
      } else {
        FlatNone(kids[..0]);
        assert FlatAll(kids[..0]) + Flat(kids[0]) == Flat(kids[0]);
      }
    }
  }

  lemma FlatNone(kids: seq<Tree>)
    requires kids == []
    ensures FlatAll(kids) == []
  {
  }

  lemma SortedConcat(a: seq<Pair>, b: seq<Pair>, k: int)
    requires Sorted(a) && Sorted(b) && Below(a, k) && AtLeast(b, k)
    ensures Sorted(a + b)
  {
  }

  lemma LastBounds(keys: seq<int>, kids: seq<Tree>, n: nat)
    requires OrderedAll(keys, kids) && 1 < n <= |kids|
    ensures Below(FlatAll(kids[..n - 1]), keys[n - 2]) && AtLeast(Flat(kids[n - 1]), keys[n - 2])
  {
    AroundSeparator(keys, kids, n - 2);
  }

  // ---- what one insertion does ----

  /** The child index that `key` selects. */
  ghost function SlotOf(keys: seq<int>, key: int): (c: nat)
    ensures c <= |keys|
    ensures Increasing(keys) ==> Slot(keys, key, c)
  {
    if keys == [] || key < keys[0] then 0 else
      var c := SlotOf(keys[1..], key);
      c + 1
  }

  lemma SlotUnique(keys: seq<int>, key: int, c: nat)
    requires Slot(keys, key, c) && Increasing(keys)
    ensures c == SlotOf(keys, key)
  {
  }

  /** Whether inserting `key` splits the top node of `t`: every node on the path is full. */
  ghost predicate Splits(t: Tree, key: int) {
    match t
    case Leaf(_, pairs) => |pairs| == MAX_KEYS
    case Inner(_, keys, kids, _) =>
      var c := SlotOf(keys, key);
      |keys| == MAX_KEYS && c < |kids| && Splits(kids[c], key)
  }

  /** How many nodes inserting `key` allocates below a possible new root. */
  ghost function Needed(t: Tree, key: int): nat {
    match t
    case Leaf(_, pairs) => if |pairs| == MAX_KEYS then 1 else 0
    case Inner(_, keys, kids, _) =>
      var c := SlotOf(keys, key);
      (if c < |kids| then Needed(kids[c], key) else 0) + if Splits(t, key) then 1 else 0
  }

  /** `out` (one tree, or two around `sep`) is what a successful insertion turns `t` into. */
  ghost predicate Inserted(t: Tree, key: int, value: int, out: seq<Tree>, sep: int) {
    && |out| == (if Splits(t, key) then 2 else 1)
    && (forall i | 0 <= i < |out| :: Ordered(out[i]) && Height(out[i]) == Height(t))
    && (|out| == 1 ==> FilledRoot(out[0]) && (Filled(t) ==> Filled(out[0])))
    && (|out| == 2 ==> FilledAll(out) && Below(Flat(out[0]), sep) && AtLeast(Flat(out[1]), sep))
    && FlatAll(out) == Ins(Flat(t), key, value)
    && First(out[0]) == First(t)
    && NodeCountAll(out) == NodeCount(t) + Needed(t, key)
  }

  /** Keys added to a subtree stay on their side of the parent's separators. */
  lemma {:induction false} InsertedBounds(t: Tree, key: int, value: int, out: seq<Tree>, sep: int)
    requires Ordered(t) && !HasKey(Flat(t), key) && Inserted(t, key, value, out, sep)
    ensures forall b, i | Below(Flat(t), b) && key < b && 0 <= i < |out| :: Below(Flat(out[i]), b)
    ensures forall b, i | AtLeast(Flat(t), b) && b <= key && 0 <= i < |out| :: AtLeast(Flat(out[i]), b)
  {
    FlatSorted(t);
    InsKeeps(Flat(t), key, value);
    forall i | 0 <= i < |out| ensures forall p | p in Flat(out[i]) :: p in FlatAll(out) {
      FlatAround(out, i);
    }
    forall b, i | Below(Flat(t), b) && key < b && 0 <= i < |out| ensures Below(Flat(out[i]), b) {
      assert Below(FlatAll(out), b);
      forall j | 0 <= j < |Flat(out[i])| ensures Flat(out[i])[j].0 < b {
        assert Flat(out[i])[j] in FlatAll(out);
      }
    }
    forall b, i | AtLeast(Flat(t), b) && b <= key && 0 <= i < |out| ensures AtLeast(Flat(out[i]), b) {
      assert AtLeast(FlatAll(out), b);
      forall j | 0 <= j < |Flat(out[i])| ensures b <= Flat(out[i])[j].0 {
        assert Flat(out[i])[j] in FlatAll(out);
      }
    }
  }

  lemma {:induction false} FilledNonEmpty(t: Tree)
    requires Filled(t) && Ordered(t)
    ensures Flat(t) != []
  {
    if t.Inner? {
      assert Even(t.kids);
      FilledNonEmpty(t.kids[0]);
    }
  }

  /** The separators after a child turned into `out`. */
  ghost function NewKeys(keys: seq<int>, c: nat, out: seq<Tree>, sep: int): seq<int>
    requires c <= |keys|
  {
    if |out| == 2 then keys[..c] + [sep] + keys[c..] else keys
  }

  ghost function NewKids(kids: seq<Tree>, c: nat, out: seq<Tree>): seq<Tree>
    requires c < |kids|
  {
    kids[..c] + out + kids[c + 1..]
  }

  /** Replacing a child by the outcome of an insertion keeps the order and inserts into the whole. */
  lemma {:induction false} ReplaceChild(keys: seq<int>, kids: seq<Tree>, key: int, value: int, c: nat, out: seq<Tree>,
                                        sep: int)
    requires OrderedAll(keys, kids) && FilledAll(kids) && Slot(keys, key, c)
    requires !HasKey(FlatAll(kids), key) && Inserted(kids[c], key, value, out, sep)
    ensures OrderedAll(NewKeys(keys, c, out, sep), NewKids(kids, c, out))
    ensures FilledAll(NewKids(kids, c, out))
    ensures FlatAll(NewKids(kids, c, out)) == Ins(FlatAll(kids), key, value)
    ensures NodeCountAll(NewKids(kids, c, out)) == NodeCountAll(kids) + Needed(kids[c], key)
    ensures First(NewKids(kids, c, out)[0]) == First(kids[0]) && Height(NewKids(kids, c, out)[0]) == Height(kids[0])
  {
    SlotDecides(keys, kids, key, c);
    ReplacedOrder(keys, kids, key, value, c, out, sep);
    ReplacedContents(keys, kids, key, value, c, out, sep);
    ReplacedFilled(kids, key, value, c, out, sep);
    hide Filled, Ordered, OrderedAll, Flat, FlatAll, NodeCount, NodeCountAll, HasKey, Needed, Slot;
    assert forall i | 0 <= i < |out| :: First(out[0]) == First(kids[c]) && Height(out[i]) == Height(kids[c]);
    HeadKept(keys, kids, c, out);
  }

  lemma ReplacedFilled(kids: seq<Tree>, key: int, value: int, c: nat, out: seq<Tree>, sep: int)
    requires FilledAll(kids) && c < |kids| && Inserted(kids[c], key, value, out, sep)
    ensures FilledAll(NewKids(kids, c, out))
  {
    hide Filled, Ordered, Flat, FlatAll, NodeCount, NodeCountAll, Needed, Splits, First, Height, Below, AtLeast;
  }

  lemma HeadKept(keys: seq<int>, kids: seq<Tree>, c: nat, out: seq<Tree>)
    requires OrderedAll(keys, kids) && c < |kids| && out != [] && First(out[0]) == First(kids[c])
    requires Height(out[0]) == Height(kids[c])
    ensures First(NewKids(kids, c, out)[0]) == First(kids[0]) && Height(NewKids(kids, c, out)[0]) == Height(kids[0])
  {
  }

  lemma ReplacedContents(keys: seq<int>, kids: seq<Tree>, key: int, value: int, c: nat, out: seq<Tree>, sep: int)
    requires OrderedAll(keys, kids) && Slot(keys, key, c) && Inserted(kids[c], key, value, out, sep)
    ensures FlatAll(NewKids(kids, c, out)) == Ins(FlatAll(kids), key, value)
    ensures NodeCountAll(NewKids(kids, c, out)) == NodeCountAll(kids) + Needed(kids[c], key)
  {
    AroundSlot(keys, kids, key, c);
    hide Ordered, OrderedAll, Ins, Flat, FlatAll, NodeCount, NodeCountAll, Below, AtLeast, Needed;
    FlatAround(kids, c);
    InsMiddle(FlatAll(kids[..c]), Flat(kids[c]), FlatAll(kids[c + 1..]), key, value);
    FlatConcat(kids[..c] + out, kids[c + 1..]);
    FlatConcat(kids[..c], out);
  }

  lemma {:induction false} ReplacedOrder(keys: seq<int>, kids: seq<Tree>, key: int, value: int, c: nat,
                                         out: seq<Tree>, sep: int)
    requires OrderedAll(keys, kids) && FilledAll(kids) && Slot(keys, key, c)
    requires !HasKey(Flat(kids[c]), key) && Inserted(kids[c], key, value, out, sep)
    ensures OrderedAll(NewKeys(keys, c, out, sep), NewKids(kids, c, out))
  {
    InsertedBounds(kids[c], key, value, out, sep);
    hide Ordered, Height, FlatAll;
    if |out| == 2 {
      FilledNonEmpty(out[0]);
      FilledNonEmpty(out[1]);
      assert Flat(out[0])[0].0 < sep <= Flat(out[1])[0].0;
      IncreasingTwo(keys, c, sep);
    }
    EvenReplaced(kids, c, out);
    BoundedAboveReplaced(keys, kids, c, out, sep);
    BoundedBelowReplaced(keys, kids, c, out, sep);
  }

  lemma IncreasingTwo(keys: seq<int>, c: nat, sep: int)
    requires Increasing(keys) && c <= |keys| && (c < |keys| ==> sep < keys[c]) && (c > 0 ==> keys[c - 1] < sep)
    ensures Increasing(keys[..c] + [sep] + keys[c..])
  {
  }

  lemma {:induction false} EvenReplaced(kids: seq<Tree>, c: nat, out: seq<Tree>)
    requires Even(kids) && c < |kids| && out != []
    requires forall i | 0 <= i < |out| :: Ordered(out[i]) && Height(out[i]) == Height(kids[0])
    ensures Even(NewKids(kids, c, out)) && Height(NewKids(kids, c, out)[0]) == Height(kids[0])
  {
    hide Ordered, Height;
    var kids' := NewKids(kids, c, out);
    forall i | 0 <= i < |kids'| ensures Ordered(kids'[i]) && Height(kids'[i]) == Height(kids[0]) {
      if i >= c + |out| {
        assert kids'[i] == kids[i + 1 - |out|];
      }
    }
  }

  lemma {:induction false} BoundedAboveReplaced(keys: seq<int>, kids: seq<Tree>, c: nat, out: seq<Tree>, sep: int)
    requires BoundedAbove(keys, kids) && c < |kids| && 1 <= |out| <= 2
    requires forall i | 0 <= i < |out| && c < |keys| :: Below(Flat(out[i]), keys[c])
    requires |out| == 2 ==> Below(Flat(out[0]), sep)
    ensures BoundedAbove(NewKeys(keys, c, out, sep), NewKids(kids, c, out))
  {
    hide Flat, Below;
    var keys', kids' := NewKeys(keys, c, out, sep), NewKids(kids, c, out);
    forall i | 0 <= i < |keys'| ensures Below(Flat(kids'[i]), keys'[i]) {
      if i >= c + |out| {
        assert kids'[i] == kids[i + 1 - |out|] && keys'[i] == keys[i + 1 - |out|];
      } else if i >= c {
        assert kids'[i] == out[i - c];
      }
    }
  }

  lemma {:induction false} BoundedBelowReplaced(keys: seq<int>, kids: seq<Tree>, c: nat, out: seq<Tree>, sep: int)
    requires BoundedBelow(keys, kids) && c < |kids| && 1 <= |out| <= 2
    requires forall i | 0 <= i < |out| && c > 0 :: AtLeast(Flat(out[i]), keys[c - 1])
    requires |out| == 2 ==> AtLeast(Flat(out[1]), sep)
    ensures BoundedBelow(NewKeys(keys, c, out, sep), NewKids(kids, c, out))
  {
    hide Flat, AtLeast;
    var keys', kids' := NewKeys(keys, c, out, sep), NewKids(kids, c, out);
    forall i | 0 < i < |kids'| ensures AtLeast(Flat(kids'[i]), keys'[i - 1]) {
      if i >= c + |out| {
        assert kids'[i] == kids[i + 1 - |out|] && keys'[i - 1] == keys[i - |out|];
      } else if i >= c {
        assert kids'[i] == out[i - c];
      }
    }
  }

  lemma {:induction false} SplitOrder(keys: seq<int>, kids: seq<Tree>, m: nat)
    requires OrderedAll(keys, kids) && m < |keys|
    ensures OrderedAll(keys[..m], kids[..m + 1]) && OrderedAll(keys[m + 1..], kids[m + 1..])
    ensures Height(kids[m + 1]) == Height(kids[0])
  {
  }

  ghost function Make(node: Node, keys: seq<int>, kids: seq<Tree>): Tree {
    Inner(node, keys, kids, FootprintAll(kids))
  }

  /** An internal node with a new child list: itself, or two halves around the middle separator when over-full. */
  ghost function InnerOutcome(node: Node, keys: seq<int>, kids: seq<Tree>, right: Node): seq<Tree> {
    if |keys| == MAX_KEYS + 1 && |kids| == MAX_KEYS + 2 then
      [Make(node, keys[..2], kids[..3]), Make(right, keys[3..], kids[3..])]
    else [Make(node, keys, kids)]
  }

  /** Absorbing a child's outcome is an insertion into the parent. */
  lemma {:induction false} AbsorbedInserts(t: Tree, key: int, value: int, c: nat, out: seq<Tree>, sep: int, right: Node)
    requires t.Inner? && Ordered(t) && Filled(t) && Slot(t.keys, key, c) && |t.kids| == |t.keys| + 1
    requires !HasKey(Flat(t), key) && Inserted(t.kids[c], key, value, out, sep)
    ensures var keys := NewKeys(t.keys, c, out, sep);
            Inserted(t, key, value, InnerOutcome(t.node, keys, NewKids(t.kids, c, out), right),
              if |keys| == MAX_KEYS + 1 then keys[2] else 0)
  {
    SlotUnique(t.keys, key, c);
    ReplaceChild(t.keys, t.kids, key, value, c, out, sep);
    hide FootprintAll, FlatAll, OrderedAll, FilledAll, NodeCountAll;
    var keys, kids := NewKeys(t.keys, c, out, sep), NewKids(t.kids, c, out);
    if |keys| == MAX_KEYS + 1 {
      InnerSplits(t, key, value, keys, kids, right);
    } else {
      InnerFits(t, key, value, keys, kids, 0);
    }
  }

  /** The new child list of an internal node after an insertion below it. */
  ghost predicate Grown(t: Tree, key: int, value: int, keys: seq<int>, kids: seq<Tree>) {
    && t.Inner? && |t.kids| > 0 && OrderedAll(keys, kids) && FilledAll(kids)
    && FlatAll(kids) == Ins(Flat(t), key, value)
    && First(kids[0]) == First(t) && 1 + Height(kids[0]) == Height(t)
  }

  lemma {:induction false} InnerFits(t: Tree, key: int, value: int, keys: seq<int>, kids: seq<Tree>, sep: int)
    requires Grown(t, key, value, keys, kids) && 1 <= |keys| <= MAX_KEYS
    requires !Splits(t, key) && 1 + NodeCountAll(kids) == NodeCount(t) + Needed(t, key)
    ensures Inserted(t, key, value, [Make(t.node, keys, kids)], sep)
  {
  }

  lemma {:induction false} InnerSplits(t: Tree, key: int, value: int, keys: seq<int>, kids: seq<Tree>, right: Node)
    requires Grown(t, key, value, keys, kids) && |keys| == MAX_KEYS + 1
    requires Splits(t, key) && 2 + NodeCountAll(kids) == NodeCount(t) + Needed(t, key)
    ensures Inserted(t, key, value, [Make(t.node, keys[..2], kids[..3]), Make(right, keys[3..], kids[3..])], keys[2])
  {
    hide FootprintAll, FlatAll, NodeCountAll, Splits, Needed;
    Halves(t.node, right, keys, kids);
  }

  /** Splitting an over-full child list keeps order, occupancy and contents. */
  lemma {:induction false} Halves(node: Node, right: Node, keys: seq<int>, kids: seq<Tree>)
    requires OrderedAll(keys, kids) && FilledAll(kids) && |keys| == MAX_KEYS + 1
    ensures var a, b := Make(node, keys[..2], kids[..3]), Make(right, keys[3..], kids[3..]);
            && Ordered(a) && Ordered(b) && Height(a) == Height(b) == 1 + Height(kids[0])
            && Filled(a) && Filled(b)
            && Below(Flat(a), keys[2]) && AtLeast(Flat(b), keys[2])
            && FlatAll([a, b]) == FlatAll(kids) && NodeCountAll([a, b]) == NodeCountAll(kids) + 2
  {
    hide FootprintAll, FlatAll, NodeCountAll;
    SplitOrder(keys, kids, 2);
    AroundSeparator(keys, kids, 2);
    HalvesContents(node, right, keys, kids);
    hide OrderedAll;
    assert Even(kids[3..]) && Even(kids[..3]);
  }

  lemma HalvesContents(node: Node, right: Node, keys: seq<int>, kids: seq<Tree>)
    requires |kids| == |keys| + 1 && |keys| == MAX_KEYS + 1
    ensures var a, b := Make(node, keys[..2], kids[..3]), Make(right, keys[3..], kids[3..]);
            FlatAll([a, b]) == FlatAll(kids) && NodeCountAll([a, b]) == NodeCountAll(kids) + 2
  {
    hide FootprintAll, FlatAll, NodeCountAll;
    assert kids == kids[..3] + kids[3..];
    FlatConcat(kids[..3], kids[3..]);
    var a, b := Make(node, keys[..2], kids[..3]), Make(right, keys[3..], kids[3..]);
    assert [a, b] == [a] + [b];
    FlatConcat([a], [b]);
    FlatOne(a);
    FlatOne(b);
  }

  /** What a leaf turns into when a pair is put at position `at`: itself, or two halves when over-full. */
  ghost function LeafOutcome(t: Tree, key: int, value: int, at: nat, right: Node): seq<Tree>
    requires t.Leaf? && at <= |t.pairs|
  {
    var pairs := t.pairs[..at] + [(key, value)] + t.pairs[at..];
    if |pairs| <= MAX_KEYS then [Leaf(t.node, pairs)]
    else [Leaf(t.node, pairs[..2]), Leaf(right, pairs[2..])]
  }

  lemma {:induction false} LeafInserts(t: Tree, key: int, value: int, at: nat, right: Node)
    requires t.Leaf? && Ordered(t) && FilledRoot(t) && !HasKey(t.pairs, key)
    requires Position(t.pairs, key, at)
    ensures var out := LeafOutcome(t, key, value, at, right);
            Inserted(t, key, value, out, if |out| == 2 then out[1].pairs[0].0 else 0)
  {
    InsAt(t.pairs, key, value, at);
    InsKeeps(t.pairs, key, value);
    var pairs, out := Ins(t.pairs, key, value), LeafOutcome(t, key, value, at, right);
    hide FlatAll, NodeCountAll;
    if |out| == 2 {
      LeafHalves(t.node, right, pairs);
      assert out == [Leaf(t.node, pairs[..2]), Leaf(right, pairs[2..])];
    } else {
      FlatOne(out[0]);
      assert out == [out[0]];
    }
    assert forall i | 0 <= i < |out| :: Ordered(out[i]) && Height(out[i]) == Height(t);
    assert |out| == 2 ==> Filled(out[0]) && Filled(out[1]);
    assert NodeCountAll(out) == NodeCount(t) + Needed(t, key);
  }

  lemma LeafHalves(node: Node, right: Node, pairs: seq<Pair>)
    requires Sorted(pairs) && |pairs| == MAX_KEYS + 1
    ensures var a, b := Leaf(node, pairs[..2]), Leaf(right, pairs[2..]);
            && Ordered(a) && Ordered(b) && Below(Flat(a), b.pairs[0].0) && AtLeast(Flat(b), b.pairs[0].0)
            && FlatAll([a, b]) == pairs && NodeCountAll([a, b]) == 2
  {
    hide FlatAll, NodeCountAll;
    var a, b := Leaf(node, pairs[..2]), Leaf(right, pairs[2..]);
    assert [a, b] == [a] + [b];
    FlatConcat([a], [b]);
    FlatOne(a);
    FlatOne(b);
    assert pairs == pairs[..2] + pairs[2..];
  }
}
