/** Consequences of the tree invariant: the leaf chain, the height bound and the node count. */
module TreeFacts {
  import opened Pairs
  import opened Nodes
  import opened Shape

  /** Following `next` from each leaf of `ls` gives the following one and finally `tail`. */
  ghost predicate Chain(ls: seq<Node>, tail: Node?)
    reads ls
  {
    forall i | 0 <= i < |ls| :: ls[i].next == Following(ls, i, tail)
  }

  ghost function Following(ls: seq<Node>, i: nat, tail: Node?): Node? {
    if i + 1 < |ls| then ls[i + 1] else tail
  }

  ghost function Zip(keys: seq<int>, values: seq<int>): seq<Pair>
    requires |keys| == |values|
  {
    seq(|keys|, i requires 0 <= i < |keys| => (keys[i], values[i]))
  }

  /** The pairs a leaf node holds. */
  ghost function PairsIn(n: Node): seq<Pair>
    reads n.Own()
  {
    if n.Shaped() && n.keyCount <= MAX_KEYS + 1 then Zip(n.keys[..n.keyCount], n.values[..n.keyCount]) else []
  }

  ghost function PairsAlong(ls: seq<Node>): seq<Pair>
    reads set i, o | 0 <= i < |ls| && o in ls[i].Own() :: o
  {
    if ls == [] then [] else PairsIn(ls[0]) + PairsAlong(ls[1..])
  }

  lemma {:induction false} PairsAlongConcat(a: seq<Node>, b: seq<Node>)
    ensures PairsAlong(a + b) == PairsAlong(a) + PairsAlong(b)
  {
    if a == [] {
      assert a + b == b;
    } else {
      assert (a + b)[1..] == a[1..] + b;
      PairsAlongConcat(a[1..], b);
    }
  }

  /**
   * The `next` chain started at the leftmost leaf visits exactly the leaves of the tree from left to right,
   * and the pairs met on the way are the tree's contents in key order.
   */
  lemma {:induction false} ChainVisitsLeaves(t: Tree, tail: Node?)
    requires Stored(t, tail) && Ordered(t)
    ensures Leaves(t) != [] && Leaves(t)[0] == First(t) && Chain(Leaves(t), tail)
    ensures PairsAlong(Leaves(t)) == Flat(t)
    decreases t, 1
  {
    match t
    case Leaf(n, pairs) =>
      assert PairsIn(n) == pairs;
      assert [n][1..] == [];
    case Inner(_, _, kids, _) =>
      assert Even(kids);
      ChainOfKids(kids, tail);
  }

  lemma ChainConcat(a: seq<Node>, b: seq<Node>, tail: Node?)
    requires b != [] && Chain(a, b[0]) && Chain(b, tail)
    ensures Chain(a + b, tail)
  {
  }

  lemma {:induction false} ChainOfKids(kids: seq<Tree>, tail: Node?)
    requires kids != [] && forall i | 0 <= i < |kids| :: Ordered(kids[i]) && Stored(kids[i], After(kids, i, tail))
    ensures LeavesAll(kids) != [] && LeavesAll(kids)[0] == First(kids[0]) && Chain(LeavesAll(kids), tail)
    ensures PairsAlong(LeavesAll(kids)) == FlatAll(kids)
    decreases kids, 0
  {
    var rest := kids[1..];
    ChainVisitsLeaves(kids[0], After(kids, 0, tail));
    if rest == [] {
      assert LeavesAll(kids) == Leaves(kids[0]);
    } else {
      forall i | 0 <= i < |rest| ensures Ordered(rest[i]) && Stored(rest[i], After(rest, i, tail)) {
        assert rest[i] == kids[i + 1] && After(rest, i, tail) == After(kids, i + 1, tail);
      }
      ChainOfKids(rest, tail);
      ChainConcat(Leaves(kids[0]), LeavesAll(rest), tail);
    }
    PairsAlongConcat(Leaves(kids[0]), LeavesAll(rest));
  }

  ghost function Pow2(n: nat): nat {
    if n == 0 then 1 else 2 * Pow2(n - 1)
  }

  /** A subtree of height `h` holds at least 2^(h+1) pairs. */
  lemma {:induction false} HeightBound(t: Tree)
    requires Ordered(t) && Filled(t)
    ensures |Flat(t)| >= Pow2(Height(t) + 1)
  {
    if t.Inner? {
      var kids := t.kids;
      assert Even(kids);
      HeightBound(kids[0]);
      HeightBound(kids[1]);
      FlatAround(kids, 0);
      FlatAround(kids[1..], 0);
    }
  }

  /** A filled subtree has fewer nodes than pairs. */
  lemma {:induction false} NodeBound(t: Tree)
    requires Ordered(t) && Filled(t)
    ensures NodeCount(t) < |Flat(t)|
    decreases t, 1
  {
    if t.Inner? {
      assert Even(t.kids);
      NodeBoundAll(t.kids);
    }
  }

  lemma {:induction false} NodeBoundAll(kids: seq<Tree>)
    requires forall i | 0 <= i < |kids| :: Ordered(kids[i]) && Filled(kids[i])
    ensures NodeCountAll(kids) + |kids| <= |FlatAll(kids)|
    decreases kids, 0
  {
    if kids != [] {
      NodeBound(kids[0]);
      NodeBoundAll(kids[1..]);
    }
  }

  /** Every root-to-leaf path has the same length: all leaves are at one depth. */
  ghost predicate Uniform(t: Tree, depth: nat) {
    match t
    case Leaf(_, _) => depth == 0
    case Inner(_, _, kids, _) => depth > 0 && forall i | 0 <= i < |kids| :: Uniform(kids[i], depth - 1)
  }

  lemma {:induction false} LeavesAtOneDepth(t: Tree)
    requires Ordered(t)
    ensures Uniform(t, Height(t))
  {
    if t.Inner? {
      assert Even(t.kids);
      forall i | 0 <= i < |t.kids| ensures Uniform(t.kids[i], Height(t) - 1) {
        LeavesAtOneDepth(t.kids[i]);
      }
    }
  }
}
