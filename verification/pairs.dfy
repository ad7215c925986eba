/** Association lists ordered by key: the abstract contents of an index. */
module Pairs {
  type Pair = (int, int)

  ghost predicate Below(s: seq<Pair>, k: int) {
    forall i | 0 <= i < |s| :: s[i].0 < k
  }

  ghost predicate AtLeast(s: seq<Pair>, k: int) {
    forall i | 0 <= i < |s| :: k <= s[i].0
  }

  ghost predicate Sorted(s: seq<Pair>) {
    forall i, j | 0 <= i < j < |s| :: s[i].0 < s[j].0
  }

  ghost predicate HasKey(s: seq<Pair>, k: int) {
    exists i :: 0 <= i < |s| && s[i].0 == k
  }

  /** The finite map a list of pairs stands for. */
  ghost function MapOf(s: seq<Pair>): map<int, int> {
    if s == [] then map[] else MapOf(s[..|s| - 1])[s[|s| - 1].0 := s[|s| - 1].1]
  }

  /** `i` counts the leading keys smaller than `k`. */
  ghost predicate Position(s: seq<Pair>, k: int, i: nat) {
    i <= |s| && (forall j | 0 <= j < i :: s[j].0 < k) && (i < |s| ==> k <= s[i].0)
  }

  /** Insertion in key order. */
  ghost function Ins(s: seq<Pair>, k: int, v: int): seq<Pair> {
    if s == [] then [(k, v)]
    else if s[0].0 < k then [s[0]] + Ins(s[1..], k, v)
    else [(k, v)] + s
  }

  /** Insertion puts the pair at the first position whose key is not smaller. */
  lemma {:induction false} InsAt(s: seq<Pair>, k: int, v: int, i: nat)
    requires Position(s, k, i)
    ensures Ins(s, k, v) == s[..i] + [(k, v)] + s[i..]
  {
    if i > 0 {
      InsAt(s[1..], k, v, i - 1);
    }
  }

  /** Insertion into the middle block when the blocks around it lie on the right sides of the key. */
  lemma {:induction false} InsMiddle(a: seq<Pair>, x: seq<Pair>, b: seq<Pair>, k: int, v: int)
    requires Below(a, k) && AtLeast(b, k)
    ensures Ins(a + x + b, k, v) == a + Ins(x, k, v) + b
  {
    var i := Rank(x, k);
    InsAt(x, k, v, i);
    var s, p := a + x + b, |a| + i;
    InsAt(s, k, v, p);
  }

  /** The number of leading keys smaller than `k`. */
  ghost function Rank(s: seq<Pair>, k: int): (i: nat)
    ensures Position(s, k, i)
  {
    if s == [] || k <= s[0].0 then 0 else 1 + Rank(s[1..], k)
  }

  /** Inserting a new key keeps the order, adds one pair and stays inside any bounds that held before. */
  lemma {:induction false} InsKeeps(s: seq<Pair>, k: int, v: int)
    requires Sorted(s) && !HasKey(s, k)
    ensures Sorted(Ins(s, k, v)) && |Ins(s, k, v)| == |s| + 1
    ensures forall b | Below(s, b) && k < b :: Below(Ins(s, k, v), b)
    ensures forall b | AtLeast(s, b) && b <= k :: AtLeast(Ins(s, k, v), b)
  {
    InsAt(s, k, v, Rank(s, k));
  }

  lemma {:induction false} MapOfConcat(a: seq<Pair>, b: seq<Pair>)
    ensures MapOf(a + b) == MapOf(a) + MapOf(b)
  {
    if b == [] {
      assert a + b == a;
    } else {
      assert (a + b)[..|a + b| - 1] == a + b[..|b| - 1];
      MapOfConcat(a, b[..|b| - 1]);
    }
  }

  /** The map of a sorted list holds exactly its pairs. */
  lemma {:induction false} MapOfPairs(s: seq<Pair>)
    requires Sorted(s)
    ensures forall i | 0 <= i < |s| :: s[i].0 in MapOf(s) && MapOf(s)[s[i].0] == s[i].1
    ensures forall k | k in MapOf(s) :: HasKey(s, k)
  {
    if s != [] {
      MapOfPairs(s[..|s| - 1]);
    }
  }

  /** Inserting a new key updates the map at that key and nowhere else. */
  lemma {:induction false} InsUpdatesMap(s: seq<Pair>, k: int, v: int)
    requires Sorted(s) && !HasKey(s, k)
    ensures MapOf(Ins(s, k, v)) == MapOf(s)[k := v]
  {
    var i := Rank(s, k);
    InsAt(s, k, v, i);
    assert s == s[..i] + s[i..];
    MapOfInserted(s[..i], s[i..], k, v);
  }

  lemma {:induction false} MapOfInserted(a: seq<Pair>, b: seq<Pair>, k: int, v: int)
    requires Sorted(b) && !HasKey(b, k)
    ensures MapOf(a + [(k, v)] + b) == MapOf(a + b)[k := v]
  {
    MapOfConcat(a, b);
    MapOfConcat(a + [(k, v)], b);
    assert (a + [(k, v)])[..|a|] == a;
    MapOfPairs(b);
  }

  /** A key that the outer blocks cannot hold is decided by the middle block. */
  lemma {:induction false} KeyInMiddle(a: seq<Pair>, x: seq<Pair>, b: seq<Pair>, k: int)
    requires Below(a, k) && AtLeast(b, k + 1)
    ensures forall v :: (k, v) in a + x + b <==> (k, v) in x
    ensures HasKey(a + x + b, k) <==> HasKey(x, k)
  {
  }
}
